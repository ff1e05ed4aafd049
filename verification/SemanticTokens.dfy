/** The delta-encoded semantic tokens and the decoding a client performs. */
module SemanticTokens {
  import opened Text
  import opened Syntax
  import opened Coordinates

  datatype SemanticToken = SemanticToken(
    deltaLine: u32,
    deltaStart: u32,
    length: u32,
    tokenType: u32,
    tokenModifiersBitset: u32)

  /** A token in absolute coordinates. */
  datatype Absolute = Absolute(line: nat, start: nat, length: nat, tokenType: u32)

  /** Well-placed spans in source order without overlap, as a validated classification guarantees. */
  predicate Ordered(text: string, tokens: seq<Token>) {
    && (forall i :: 0 <= i < |tokens| ==>
                      tokens[i].span.start <= tokens[i].span.end
                      && IsBoundary(text, tokens[i].span.start) && IsBoundary(text, tokens[i].span.end))
    && (forall i :: 0 < i < |tokens| ==> tokens[i - 1].span.end <= tokens[i].span.start)
  }

  // ----- What a client decodes -----

  /** The client's running (line, start) after reading every token. */
  function Cursor(data: seq<SemanticToken>): (nat, nat) {
    if data == [] then (0, 0)
    else
      var before, last := Cursor(data[..|data| - 1]), data[|data| - 1];
      (before.0 + last.deltaLine, if last.deltaLine == 0 then before.1 + last.deltaStart else last.deltaStart)
  }

  function Decoded(data: seq<SemanticToken>): seq<Absolute> {
    if data == [] then []
    else
      var last, at := data[|data| - 1], Cursor(data);
      Decoded(data[..|data| - 1]) + [Absolute(at.0, at.1, last.length, last.tokenType)]
  }

  // ----- What the document means -----

  function AbsoluteOf(text: string, token: Token, tokenType: u32): Absolute
    requires token.span.start <= token.span.end
  {
    var at := Place(text, FloorIndex(text, token.span.start));
    Absolute(at.0, at.1, Utf16Len(Slice(text, token.span.start, token.span.end)), tokenType)
  }

  /** Two places on one line have the line's one start. */
  lemma {:induction false} OneLineOneStart(text: string, i: nat, j: nat)
    requires i <= j <= |text| && LineNumber(text, i) == LineNumber(text, j)
    ensures LineBegin(text, i) == LineBegin(text, j)
    decreases j
  {
    if i < j {
      if i < j - 1 {
        PlaceIncreases(text, i, j - 1);
      }
      OneLineOneStart(text, i, j - 1);
    }
  }

  /** A token whose ends lie on one line reaches from its column to the column of its end, in the same units. */
  lemma LengthReachesTheEnd(text: string, token: Token, tokenType: u32)
    requires token.span.start <= token.span.end && IsBoundary(text, token.span.start) && IsBoundary(text, token.span.end)
    ensures var start, end := Place(text, FloorIndex(text, token.span.start)), Place(text, FloorIndex(text, token.span.end));
            var at := AbsoluteOf(text, token, tokenType);
            && (at.line, at.start) == start && at.tokenType == tokenType
            && (start.0 == end.0 ==> at.start + at.length == end.1)
  {
    var i, j := FloorIndex(text, token.span.start), FloorIndex(text, token.span.end);
    ByteOffsetInjective(text, i, j);
    OffsetsOfSlice(text, i, j);
    if LineNumber(text, i) == LineNumber(text, j) {
      OneLineOneStart(text, i, j);
    }
  }

  /** Every styled token at its own position, in order; unstyled tokens are left out. */
  function StyledTokens(text: string, tokens: seq<Token>, style: PosClass -> Option<u32>): seq<Absolute>
    requires Ordered(text, tokens)
  {
    if tokens == [] then []
    else
      var last := tokens[|tokens| - 1];
      StyledTokens(text, tokens[..|tokens| - 1], style)
      + match style(last.pos)
        case None => []
        case Some(tokenType) => [AbsoluteOf(text, last, tokenType)]
  }

  lemma {:induction false} SpansAdvance(text: string, tokens: seq<Token>, i: nat, j: nat)
    requires Ordered(text, tokens) && i <= j < |tokens|
    ensures tokens[i].span.start <= tokens[j].span.start
    decreases j
  {
    if i < j {
      SpansAdvance(text, tokens, i, j - 1);
    }
  }

  lemma PlaceMonotone(s: string, a: nat, b: nat)
    requires a <= b && IsBoundary(s, a) && IsBoundary(s, b)
    ensures Place(s, FloorIndex(s, a)) == Place(s, FloorIndex(s, b))
            || Before(Place(s, FloorIndex(s, a)), Place(s, FloorIndex(s, b)))
  {
    var i, j := FloorIndex(s, a), FloorIndex(s, b);
    ByteOffsetInjective(s, i, j);
    if i < j {
      PlaceIncreases(s, i, j);
    }
  }

  lemma SliceUnits(text: string, a: nat, b: nat)
    requires a <= b && IsBoundary(text, a) && IsBoundary(text, b) && ByteLen(text) < U32_LIMIT
    ensures Utf16Len(Slice(text, a, b)) < U32_LIMIT
  {
    var i, j := FloorIndex(text, a), FloorIndex(text, b);
    ByteOffsetInjective(text, i, j);
    OffsetsOfSlice(text, i, j);
    OffsetsIncrease(text, i, j);
    OffsetsIncrease(text, 0, i);
    OffsetsIncrease(text, j, |text|);
  }

  /** Reading one more token moves the cursor to that token's own position. */
  lemma DecodeNext(data: seq<SemanticToken>, token: SemanticToken, at: (nat, nat))
    requires at.0 == Cursor(data).0 + token.deltaLine
    requires at.1 == if token.deltaLine == 0 then Cursor(data).1 + token.deltaStart else token.deltaStart
    ensures Cursor(data + [token]) == at
    ensures Decoded(data + [token]) == Decoded(data) + [Absolute(at.0, at.1, token.length, token.tokenType)]
  {
    assert (data + [token])[..|data|] == data;
  }

  lemma StyledNext(text: string, tokens: seq<Token>, i: nat, style: PosClass -> Option<u32>)
    requires Ordered(text, tokens) && i < |tokens|
    ensures StyledTokens(text, tokens[..i + 1], style)
            == StyledTokens(text, tokens[..i], style)
               + match style(tokens[i].pos)
                 case None => []
                 case Some(tokenType) => [AbsoluteOf(text, tokens[i], tokenType)]
  {
    assert tokens[..i + 1][..i] == tokens[..i];
  }

  /** How many entries the first `i` tokens have. */
  function StyledBefore(text: string, tokens: seq<Token>, i: nat, style: PosClass -> Option<u32>): nat
    requires Ordered(text, tokens) && i <= |tokens|
  {
    |StyledTokens(text, tokens[..i], style)|
  }

  lemma StyledGrows(text: string, tokens: seq<Token>, i: nat, style: PosClass -> Option<u32>)
    requires Ordered(text, tokens) && i < |tokens|
    ensures StyledBefore(text, tokens, i + 1, style)
            == StyledBefore(text, tokens, i, style) + if style(tokens[i].pos).Some? then 1 else 0
  {
    StyledNext(text, tokens, i, style);
  }

  /** Each styled token has its entry, right behind those of the tokens before it. */
  lemma {:induction false} StyledTokenAt(text: string, tokens: seq<Token>, i: nat, n: nat, style: PosClass -> Option<u32>)
    requires Ordered(text, tokens) && i < n <= |tokens| && style(tokens[i].pos).Some?
    ensures var all, k := StyledTokens(text, tokens[..n], style), StyledBefore(text, tokens, i, style);
            k < |all| && all[k] == AbsoluteOf(text, tokens[i], style(tokens[i].pos).value)
    decreases n
  {
    StyledNext(text, tokens, n - 1, style);
    if i < n - 1 {
      StyledTokenAt(text, tokens, i, n - 1, style);
    }
  }

  /** And each entry is that of a styled token. */
  lemma {:induction false} EntryIsStyled(text: string, tokens: seq<Token>, k: nat, n: nat, style: PosClass -> Option<u32>)
    returns (i: nat)
    requires Ordered(text, tokens) && n <= |tokens| && k < StyledBefore(text, tokens, n, style)
    ensures i < n && style(tokens[i].pos).Some? && k == StyledBefore(text, tokens, i, style)
    decreases n
  {
    StyledGrows(text, tokens, n - 1, style);
    if k < StyledBefore(text, tokens, n - 1, style) {
      i := EntryIsStyled(text, tokens, k, n - 1, style);
    } else {
      i := n - 1;
    }
  }

  /** One token as the difference from the cursor, at or after which it starts. */
  method EncodeToken(index: LineIndex, token: Token, tokenType: u32, prevLine: u32, prevStart: u32,
                     ghost prevByte: nat, ghost data: seq<SemanticToken>)
    returns (encoded: SemanticToken, line: u32, start: u32)
    requires index.Valid() && ByteLen(index.text) < U32_LIMIT
    requires IsBoundary(index.text, prevByte) && IsBoundary(index.text, token.span.start)
    requires IsBoundary(index.text, token.span.end) && prevByte <= token.span.start <= token.span.end
    requires Cursor(data) == (prevLine, prevStart) == Place(index.text, FloorIndex(index.text, prevByte))
    ensures encoded.tokenModifiersBitset == 0
    ensures Cursor(data + [encoded]) == (line, start) == Place(index.text, FloorIndex(index.text, token.span.start))
    ensures Decoded(data + [encoded]) == Decoded(data) + [AbsoluteOf(index.text, token, tokenType)]
  {
    PlaceMonotone(index.text, prevByte, token.span.start);
    SliceUnits(index.text, token.span.start, token.span.end);
    line, start := index.Position(token.span.start).0, index.Position(token.span.start).1;
    var length: u32 := Utf16Len(Slice(index.text, token.span.start, token.span.end));
    var deltaLine: u32 := line - prevLine;
    var deltaStart: u32 := if deltaLine == 0 then start - prevStart else start;
    encoded := SemanticToken(deltaLine, deltaStart, length, tokenType, 0);
    DecodeNext(data, encoded, (line, start));
  }

  /**
    The encoder. Its two subtractions are of type `u32`, so verification shows
    that neither underflows; decoding its output gives back every styled token.
   */
  method SemanticTokensFrom(text: string, tokens: seq<Token>, style: PosClass -> Option<u32>)
    returns (data: seq<SemanticToken>)
    requires Ordered(text, tokens) && ByteLen(text) < U32_LIMIT
    ensures Decoded(data) == StyledTokens(text, tokens, style)
    ensures forall token <- data :: token.tokenModifiersBitset == 0
  {
    var index := LineIndex.New(text);
    data := [];
    var prevLine: u32, prevStart: u32 := 0, 0;
    ghost var prevByte: nat := 0;
    IndexOfOffset(text, 0);
    for i := 0 to |tokens|
      invariant Decoded(data) == StyledTokens(text, tokens[..i], style)
      invariant forall token <- data :: token.tokenModifiersBitset == 0
      invariant Cursor(data) == (prevLine, prevStart) == Place(text, FloorIndex(text, prevByte))
      invariant IsBoundary(text, prevByte)
      invariant i < |tokens| ==> prevByte <= tokens[i].span.start
    {
      var token := tokens[i];
      StyledNext(text, tokens, i, style);
      if i + 1 < |tokens| {
        SpansAdvance(text, tokens, i, i + 1);
      }
      match style(token.pos) {
        case None =>
        case Some(tokenType) =>
          var encoded;
          encoded, prevLine, prevStart := EncodeToken(index, token, tokenType, prevLine, prevStart, prevByte, data);
          data := data + [encoded];
          prevByte := token.span.start;
      }
    }
    assert tokens[..|tokens|] == tokens;
  }
}
