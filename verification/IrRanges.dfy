/** Byte ranges of a received document, checked against the source they claim to describe. */
module IrRanges {
  import opened Text
  import opened IrDocument

  /** The length every range is bounded by, and the text when its bytes decoded. */
  datatype SourceContext = SourceContext(length: nat, text: Option<string>) {
    predicate Valid() {
      text.Some? ==> length == ByteLen(text.value)
    }
  }

  function AtField(path: Path, name: FieldName): Path {
    path + [Field(name)]
  }

  function NegativeErrors(path: Path, name: FieldName, value: i32): seq<ValidationError> {
    if value < 0 then [NegativeOffset(AtField(path, name), value)] else []
  }

  function BoundaryErrors(path: Path, name: FieldName, value: i32, ctx: SourceContext): seq<ValidationError> {
    if ctx.text.Some? && 0 <= value <= ByteLen(ctx.text.value) && !IsBoundary(ctx.text.value, value) then
      [RangeNotOnCharBoundary(AtField(path, name), value)]
    else []
  }

  /** Every fault of one range, in the order they are reported. */
  function RangeErrors(path: Path, range: ByteRange, ctx: SourceContext): seq<ValidationError> {
    NegativeErrors(path, StartUtf8Field, range.startUtf8)
    + NegativeErrors(path, EndUtf8Field, range.endUtf8)
    + (if range.startUtf8 > range.endUtf8 then [RangeOutOfOrder(path, range.startUtf8, range.endUtf8)] else [])
    + (if range.endUtf8 > ctx.length then [RangeOutOfBounds(AtField(path, EndUtf8Field), range.endUtf8, ctx.length)]
       else [])
    + BoundaryErrors(path, StartUtf8Field, range.startUtf8, ctx)
    + BoundaryErrors(path, EndUtf8Field, range.endUtf8, ctx)
  }

  /** A range of the source: ordered, in bounds and, when the text is known, between whole characters. */
  predicate RangeOk(range: ByteRange, ctx: SourceContext) {
    && 0 <= range.startUtf8 <= range.endUtf8 <= ctx.length
    && (ctx.text.Some? ==> IsBoundary(ctx.text.value, range.startUtf8) && IsBoundary(ctx.text.value, range.endUtf8))
  }

  lemma RangeErrorsFindEveryFault(path: Path, range: ByteRange, ctx: SourceContext)
    requires ctx.Valid()
    ensures RangeErrors(path, range, ctx) == [] <==> RangeOk(range, ctx)
  {
    if ctx.text.Some? && RangeOk(range, ctx) {
      BoundaryBound(ctx.text.value, range.endUtf8);
    }
  }

  method CheckRange(path: Path, range: ByteRange, ctx: SourceContext) returns (errors: seq<ValidationError>)
    requires ctx.Valid()
    ensures errors == RangeErrors(path, range, ctx)
    ensures errors == [] <==> RangeOk(range, ctx)
  {
    RangeErrorsFindEveryFault(path, range, ctx);
    var edges := [(StartUtf8Field, range.startUtf8), (EndUtf8Field, range.endUtf8)];
    errors := [];
    for k := 0 to 2
      invariant errors == (if k > 0 then NegativeErrors(path, StartUtf8Field, range.startUtf8) else [])
                          + (if k > 1 then NegativeErrors(path, EndUtf8Field, range.endUtf8) else [])
    {
      if edges[k].1 < 0 {
        errors := errors + [NegativeOffset(AtField(path, edges[k].0), edges[k].1)];
      }
    }
    if range.startUtf8 > range.endUtf8 {
      errors := errors + [RangeOutOfOrder(path, range.startUtf8, range.endUtf8)];
    }
    if range.endUtf8 > ctx.length {
      errors := errors + [RangeOutOfBounds(AtField(path, EndUtf8Field), range.endUtf8, ctx.length)];
    }
    if ctx.text.Some? {
      ghost var before := errors;
      for k := 0 to 2
        invariant errors == before + (if k > 0 then BoundaryErrors(path, StartUtf8Field, range.startUtf8, ctx) else [])
                            + (if k > 1 then BoundaryErrors(path, EndUtf8Field, range.endUtf8, ctx) else [])
      {
        var offset := edges[k].1;
        if 0 <= offset <= ByteLen(ctx.text.value) && !IsBoundary(ctx.text.value, offset) {
          errors := errors + [RangeNotOnCharBoundary(AtField(path, edges[k].0), offset)];
        }
      }
    }
  }
}
