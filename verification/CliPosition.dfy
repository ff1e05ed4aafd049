/** The command line's one-pass position, related to the language server's. */
module CliPosition {
  import opened Text
  import opened Coordinates

  /** The number of scalars that start before byte `b`. */
  function CeilIndex(s: string, b: nat): (k: nat)
    ensures k <= |s|
    ensures forall j :: 0 <= j < k ==> ByteOffset(s, j) < b
    ensures k < |s| ==> b <= ByteOffset(s, k)
  {
    CeilFrom(s, b, 0)
  }

  function CeilFrom(s: string, b: nat, k: nat): (r: nat)
    requires k <= |s|
    requires forall j :: 0 <= j < k ==> ByteOffset(s, j) < b
    ensures k <= r <= |s|
    ensures forall j :: 0 <= j < r ==> ByteOffset(s, j) < b
    ensures r < |s| ==> b <= ByteOffset(s, r)
    decreases |s| - k
  {
    if k == |s| || b <= ByteOffset(s, k) then k else CeilFrom(s, b, k + 1)
  }

  /** One-based line and scalar column; inside a `\r\n` the carriage return has already broken the line. */
  function ScalarPlace(s: string, k: nat): (nat, nat)
    requires k <= |s|
  {
    if InsideCrLf(s, k) then (LineNumber(s, k) + 2, 1)
    else (LineNumber(s, k) + 1, 1 + k - LineBegin(s, k))
  }

  method LineCol(source: string, byte: nat) returns (line: nat, col: nat)
    ensures (line, col) == ScalarPlace(source, CeilIndex(source, byte))
  {
    line, col := 1, 1;
    var prevWasCr := false;
    var k, offset := 0, 0;
    while k < |source|
      invariant k <= |source| && offset == ByteOffset(source, k)
      invariant k <= CeilIndex(source, byte)
      invariant (line, col) == ScalarPlace(source, k)
      invariant prevWasCr <==> k > 0 && source[k - 1] == '\r'
    {
      if offset >= byte {
        break;
      }
      var ch := source[k];
      offset := offset + Utf8Width(ch);
      k := k + 1;
      if prevWasCr && ch == '\n' {
        prevWasCr := false;
        continue;
      }
      prevWasCr := false;
      match ch {
        case '\n' =>
          line := line + 1;
          col := 1;
        case '\r' =>
          line := line + 1;
          col := 1;
          prevWasCr := true;
        case _ =>
          col := col + 1;
      }
    }
  }

  /** The two surfaces name the same line at a character boundary exactly when it is not inside a `\r\n`. */
  lemma LinesAgree(source: string, k: nat, index: LineIndex)
    requires k <= |source| && ByteLen(source) < U32_LIMIT
    requires index.text == source && index.Valid()
    ensures IsBoundary(source, ByteOffset(source, k))
    ensures var cli := ScalarPlace(source, CeilIndex(source, ByteOffset(source, k)));
            var lsp := index.Position(ByteOffset(source, k));
            && (cli.0 == lsp.0 + 1 <==> !InsideCrLf(source, k))
            && (!InsideCrLf(source, k) ==>
                  && cli.1 == 1 + (k - LineBegin(source, k))
                  && lsp.1 == Utf16Len(source[LineBegin(source, k)..k]))
  {
    IndexOfOffset(source, k);
    ByteOffsetInjective(source, CeilIndex(source, ByteOffset(source, k)), k);
    OffsetsOfSlice(source, LineBegin(source, k), k);
  }

  /** Where they part: at byte 1 of a `\r\n` the report is already on line 2, the server still on line 0. */
  lemma LinesPartInsideCrLf(index: LineIndex)
    requires index.text == "\r\n" && index.Valid()
    ensures IsBoundary("\r\n", 1) && ByteLen("\r\n") < U32_LIMIT
    ensures ScalarPlace("\r\n", CeilIndex("\r\n", 1)).0 == 2 && index.Position(1).0 == 0
  {
    var source := "\r\n";
    assert ByteOffset(source, 1) == 1 && ByteOffset(source, 2) == 2;
    LinesAgree(source, 1, index);
    IndexOfOffset(source, 1);
    ByteOffsetInjective(source, CeilIndex(source, 1), 1);
    assert LineNumber(source, 1) == 0;
  }
}
