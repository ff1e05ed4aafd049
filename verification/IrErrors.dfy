/**
  Which errors a document gets, kind by kind: an error is listed exactly when the
  item its path points at has that fault, and it carries that item's own values.
 */
module IrErrors {
  import opened Sequences
  import opened Text
  import opened IrDocument
  import opened IrRanges
  import opened CycleSearch
  import opened StructureCycles
  import opened StructureValidation
  import opened IrValidation

  // ----- Lists of lists -----

  lemma {:induction false} InCollected<T>(f: nat -> seq<T>, n: nat, x: T)
    ensures x in Collect(f, n) <==> exists i: nat :: i < n && x in f(i)
    decreases n
  {
    if n > 0 {
      InCollected(f, n - 1, x);
    }
  }

  // ----- One range -----

  predicate RangeFault(path: Path, range: ByteRange, ctx: SourceContext, e: ValidationError) {
    match e
    case NegativeOffset(at, value) =>
      || (at == path + [Field(StartUtf8Field)] && value == range.startUtf8 < 0)
      || (at == path + [Field(EndUtf8Field)] && value == range.endUtf8 < 0)
    case RangeOutOfOrder(at, start, end) => at == path && start == range.startUtf8 > range.endUtf8 == end
    case RangeOutOfBounds(at, end, length) =>
      at == path + [Field(EndUtf8Field)] && end == range.endUtf8 > ctx.length == length
    case RangeNotOnCharBoundary(at, offset) =>
      && ctx.text.Some? && 0 <= offset <= ByteLen(ctx.text.value) && !IsBoundary(ctx.text.value, offset)
      && (|| (at == path + [Field(StartUtf8Field)] && offset == range.startUtf8)
          || (at == path + [Field(EndUtf8Field)] && offset == range.endUtf8))
    case _ => false
  }

  lemma RangeErrorsAreFaults(path: Path, range: ByteRange, ctx: SourceContext, e: ValidationError)
    ensures e in RangeErrors(path, range, ctx) <==> RangeFault(path, range, ctx, e)
  {
  }

  // ----- Tokens -----

  /** The token starts before the one before it does, or else before that one ends. */
  predicate OrderFault(tokens: seq<IrToken>, i: nat, e: ValidationError)
    requires i < |tokens|
  {
    && i > 0 && e.path == [Field(TokensField), Index(i), Field(ByteRangeField), Field(StartUtf8Field)]
    && var previous, here := tokens[i - 1].byteRange, tokens[i].byteRange;
       match e
       case UnsortedTokenRange(_, index, previousStart, start) =>
         index == i - 1 && previousStart == previous.startUtf8 > here.startUtf8 == start
       case OverlappingTokenRange(_, index, previousEnd, start) =>
         index == i - 1 && previous.startUtf8 <= start && previousEnd == previous.endUtf8 > here.startUtf8 == start
       case _ => false
  }

  predicate TokenFault(tokens: seq<IrToken>, ctx: SourceContext, i: nat, e: ValidationError)
    requires i < |tokens|
  {
    var token, path := tokens[i], [Field(TokensField), Index(i)];
    || RangeFault(path + [Field(ByteRangeField)], token.byteRange, ctx, e)
    || OrderFault(tokens, i, e)
    || match e
       case EmptyTokenRange(at, id) =>
         at == path + [Field(ByteRangeField)] && id == token.occurrenceId
         && token.byteRange.startUtf8 == token.byteRange.endUtf8
       case DuplicateTokenId(at, id) =>
         at == path && id == token.occurrenceId && exists k :: 0 <= k < i && tokens[k].occurrenceId == id
       case _ => false
  }

  lemma OrderErrorsAreFaults(tokens: seq<IrToken>, i: nat, e: ValidationError)
    requires i < |tokens|
    ensures e in OrderErrors(tokens, i) <==> OrderFault(tokens, i, e)
  {
    assert AtField(TokenRangePath(i), StartUtf8Field)
        == [Field(TokensField), Index(i), Field(ByteRangeField), Field(StartUtf8Field)];
  }

  lemma TokenErrorsAreFaultsAt(tokens: seq<IrToken>, ctx: SourceContext, i: nat, e: ValidationError)
    requires i < |tokens|
    ensures e in TokenErrorsAt(tokens, ctx, i) <==> TokenFault(tokens, ctx, i, e)
  {
    RangeErrorsAreFaults(TokenRangePath(i), tokens[i].byteRange, ctx, e);
    OrderErrorsAreFaults(tokens, i, e);
  }

  ghost predicate IsTokenFault(tokens: seq<IrToken>, ctx: SourceContext, e: ValidationError) {
    exists i: nat :: i < |tokens| && TokenFault(tokens, ctx, i, e)
  }

  lemma TokenErrorsAreFaults(tokens: seq<IrToken>, ctx: SourceContext, e: ValidationError)
    ensures e in TokenErrors(tokens, ctx) <==> IsTokenFault(tokens, ctx, e)
  {
    var faults := TokenFaults(tokens, ctx);
    InCollected(faults, |tokens|, e);
    forall i: nat | i < |tokens|
      ensures e in faults(i) <==> TokenFault(tokens, ctx, i, e)
    {
      TokenErrorsAreFaultsAt(tokens, ctx, i, e);
    }
  }

  // ----- Token axes -----

  /** The first rule a token's axes break. */
  predicate BreaksRule(token: IrToken, detail: AxesFault) {
    match detail
    case WordWithoutLexicalClass => token.tokenKind == WordKind && token.lexicalClass.None?
    case FunctionWordWithoutFunctionKind =>
      token.tokenKind == WordKind && token.lexicalClass == Some(FunctionClass) && token.functionKind.None?
    case FunctionKindOffFunctionWord =>
      token.tokenKind == WordKind && token.functionKind.Some?
      && (token.lexicalClass == Some(ContentClass) || token.lexicalClass == Some(ProperNounCandidate))
    case OpenClassKindOffContentWord =>
      token.tokenKind == WordKind && token.openClassKind.Some?
      && (|| (token.lexicalClass == Some(FunctionClass) && token.functionKind.Some?)
          || (token.lexicalClass == Some(ProperNounCandidate) && token.functionKind.None?))
    case LexicalClassOnNonWord => token.tokenKind != WordKind && token.lexicalClass.Some?
    case FunctionKindOnNonWord =>
      token.tokenKind != WordKind && token.lexicalClass.None? && token.functionKind.Some?
    case OpenClassKindOnNonWord =>
      token.tokenKind != WordKind && token.lexicalClass.None? && token.functionKind.None? && token.openClassKind.Some?
  }

  predicate AxesFaultAt(tokens: seq<IrToken>, i: nat, e: ValidationError)
    requires i < |tokens|
  {
    && e.IllegalTokenAxes? && e.path == [Field(TokensField), Index(i)] && e.occurrenceId == tokens[i].occurrenceId
    && BreaksRule(tokens[i], e.detail)
  }

  ghost predicate IsAxesFault(tokens: seq<IrToken>, e: ValidationError) {
    exists i: nat :: i < |tokens| && AxesFaultAt(tokens, i, e)
  }

  lemma AxesErrorsAreFaults(tokens: seq<IrToken>, e: ValidationError)
    ensures e in AxesErrors(tokens) <==> IsAxesFault(tokens, e)
  {
    var faults := AxesFaults(tokens);
    InCollected(faults, |tokens|, e);
    forall i: nat | i < |tokens|
      ensures e in faults(i) <==> AxesFaultAt(tokens, i, e)
    {
      AxesErrorsAreFaultsAt(tokens, i, e);
    }
  }

  lemma AxesErrorsAreFaultsAt(tokens: seq<IrToken>, i: nat, e: ValidationError)
    requires i < |tokens|
    ensures e in AxesErrorsAt(tokens, i) <==> AxesFaultAt(tokens, i, e)
  {
    assert e.IllegalTokenAxes? ==> (AxesViolation(tokens[i]) == Some(e.detail) <==> BreaksRule(tokens[i], e.detail));
  }

  // ----- Outline nodes -----

  predicate NodeFault(structure: seq<OutlineNode>, ctx: SourceContext, i: nat, e: ValidationError)
    requires i < |structure|
  {
    var node, path := structure[i], [Field(StructureField), Index(i)];
    || RangeFault(path + [Field(ByteRangeField)], node.byteRange, ctx, e)
    || match e
       case DuplicateNodeId(at, id) =>
         at == path && id == node.nodeId && exists k :: 0 <= k < i && structure[k].nodeId == id
       case InvalidOutlineDepth(at, depth, expected) =>
         at == path + [Field(DepthField)] && depth == node.depth != expected
         && expected == if node.kind == ParagraphOutline then 0 else 1
       case _ => false
  }

  lemma NodeErrorsAreFaultsAt(structure: seq<OutlineNode>, ctx: SourceContext, i: nat, e: ValidationError)
    requires i < |structure|
    ensures e in NodeErrorsAt(structure, ctx, i) <==> NodeFault(structure, ctx, i, e)
  {
    RangeErrorsAreFaults([Field(StructureField), Index(i)] + [Field(ByteRangeField)], structure[i].byteRange, ctx, e);
  }

  ghost predicate IsNodeFault(structure: seq<OutlineNode>, ctx: SourceContext, e: ValidationError) {
    exists i: nat :: i < |structure| && NodeFault(structure, ctx, i, e)
  }

  lemma NodeErrorsAreFaults(structure: seq<OutlineNode>, ctx: SourceContext, e: ValidationError)
    ensures e in NodeErrors(structure, ctx) <==> IsNodeFault(structure, ctx, e)
  {
    var faults := NodeFaults(structure, ctx);
    InCollected(faults, |structure|, e);
    forall i: nat | i < |structure|
      ensures e in faults(i) <==> NodeFault(structure, ctx, i, e)
    {
      NodeErrorsAreFaultsAt(structure, ctx, i, e);
    }
  }

  // ----- Outline edges -----

  /** Node `c` is the first with this id. */
  predicate IsFirstWith(structure: seq<OutlineNode>, id: i32, c: nat) {
    c < |structure| && structure[c].nodeId == id && forall k :: 0 <= k < c ==> structure[k].nodeId != id
  }

  /** Node `o` is the first to list this child. */
  predicate IsFirstToList(structure: seq<OutlineNode>, child: i32, o: nat) {
    && o < |structure| && child in structure[o].childNodeIds
    && forall k :: 0 <= k < o ==> child !in structure[k].childNodeIds
  }

  ghost predicate EdgeFault(structure: seq<OutlineNode>, i: nat, j: nat, e: ValidationError)
    requires i < |structure| && j < |structure[i].childNodeIds|
  {
    var node, id := structure[i], structure[i].childNodeIds[j];
    e.path == [Field(StructureField), Index(i), Field(ChildNodeIdsField), Index(j)]
    && match e
       case DanglingChildRef(_, child) => child == id && forall k :: 0 <= k < |structure| ==> structure[k].nodeId != id
       case MultipleStructureParents(_, child, first, second) =>
         && child == id && second == node.nodeId != first
         && (exists c: nat :: IsFirstWith(structure, id, c))
         && exists o: nat :: IsFirstToList(structure, id, o) && first == structure[o].nodeId
       case ChildRangeOutsideParent(_, parent, child) =>
         && child == id && parent == node.nodeId
         && exists c: nat :: IsFirstWith(structure, id, c)
                             && (structure[c].byteRange.startUtf8 < node.byteRange.startUtf8
                                 || structure[c].byteRange.endUtf8 > node.byteRange.endUtf8)
       case _ => false
  }

  lemma {:induction false} FirstParentIsFirst(structure: seq<OutlineNode>, child: i32, n: nat)
    requires n <= |structure|
    ensures match FirstParent(structure, child, n)
            case None => forall k :: 0 <= k < n ==> child !in structure[k].childNodeIds
            case Some(o) => o < n && IsFirstToList(structure, child, o)
    decreases n
  {
    if n > 0 {
      FirstParentIsFirst(structure, child, n - 1);
    }
  }

  lemma EdgeErrorsAreFaultsAt(structure: seq<OutlineNode>, i: nat, j: nat, e: ValidationError)
    requires i < |structure| && j < |structure[i].childNodeIds|
    ensures e in EdgeErrorsAt(structure, i, j) <==> EdgeFault(structure, i, j, e)
  {
    var id := structure[i].childNodeIds[j];
    FirstWithIdIsFirst(structure, id, |structure|);
    FirstParentExists(structure, id, i, i + 1);
    FirstParentIsFirst(structure, id, i + 1);
    var o := OwnerOf(structure, i, j);
    assert IsFirstToList(structure, id, o);
    forall p: nat | IsFirstToList(structure, id, p)
      ensures p == o
    {
    }
    if Resolve(structure, id).Some? {
      var c := Resolve(structure, id).value;
      assert IsFirstWith(structure, id, c);
      forall d: nat | IsFirstWith(structure, id, d)
        ensures d == c
      {
      }
    }
  }

  ghost predicate IsEdgeFault(structure: seq<OutlineNode>, e: ValidationError) {
    exists i: nat, j: nat :: i < |structure| && j < |structure[i].childNodeIds| && EdgeFault(structure, i, j, e)
  }

  lemma NodeEdgeErrorsAreFaults(structure: seq<OutlineNode>, i: nat, e: ValidationError)
    requires i < |structure|
    ensures e in NodeEdgeErrors(structure, i)
            <==> exists j: nat :: j < |structure[i].childNodeIds| && EdgeFault(structure, i, j, e)
  {
    var faults := EdgeFaultsOf(structure, i);
    InCollected(faults, |structure[i].childNodeIds|, e);
    forall j: nat | j < |structure[i].childNodeIds|
      ensures e in faults(j) <==> EdgeFault(structure, i, j, e)
    {
      EdgeErrorsAreFaultsAt(structure, i, j, e);
    }
  }

  lemma EdgeErrorsAreFaults(structure: seq<OutlineNode>, e: ValidationError)
    ensures e in EdgeErrors(structure) <==> IsEdgeFault(structure, e)
  {
    var faults := EdgeFaults(structure);
    InCollected(faults, |structure|, e);
    forall i: nat | i < |structure|
      ensures e in faults(i) <==> exists j: nat :: j < |structure[i].childNodeIds| && EdgeFault(structure, i, j, e)
    {
      NodeEdgeErrorsAreFaults(structure, i, e);
    }
  }

  // ----- Cycles -----

  /** The error points at an edge the search reports, and names the two nodes it joins. */
  predicate CycleFaultAt(structure: seq<OutlineNode>, edge: Edge, e: ValidationError)
    requires InRange(structure, edge)
  {
    e == StructureCycle([Field(StructureField), Index(edge.node), Field(ChildNodeIdsField), Index(edge.index)],
                        structure[edge.node].nodeId, structure[edge.node].childNodeIds[edge.index])
  }

  ghost predicate IsCycleFault(structure: seq<OutlineNode>, e: ValidationError) {
    GraphIsGraph(structure);
    exists edge :: edge in SearchAll(GraphOf(structure)).reported && InRange(structure, edge) && CycleFaultAt(structure, edge, e)
  }

  lemma CycleErrorsAreFaults(structure: seq<OutlineNode>, e: ValidationError)
    ensures e in OutlineCycleErrors(structure) <==> IsCycleFault(structure, e)
  {
    GraphIsGraph(structure);
    SearchIsSound(GraphOf(structure));
    ReportedAreErrors(structure, SearchAll(GraphOf(structure)).reported, e);
  }

  lemma ReportedAreErrors(structure: seq<OutlineNode>, reported: seq<Edge>, e: ValidationError)
    requires forall edge <- reported :: InRange(structure, edge)
    ensures e in CycleErrors(structure, reported)
            <==> exists edge :: edge in reported && InRange(structure, edge) && CycleFaultAt(structure, edge, e)
  {
    var errors := CycleErrors(structure, reported);
    if edge :| edge in reported && InRange(structure, edge) && CycleFaultAt(structure, edge, e) {
      var k :| 0 <= k < |reported| && reported[k] == edge;
      assert errors[k] == e;
    }
    if e in errors {
      var k :| 0 <= k < |errors| && errors[k] == e;
      assert reported[k] in reported && CycleFaultAt(structure, reported[k], e);
    }
  }

  // ----- Diagnostics and derivation -----

  ghost predicate IsRangesFault(path: nat -> Path, ranges: seq<ByteRange>, ctx: SourceContext, e: ValidationError) {
    exists i: nat :: i < |ranges| && RangeFault(path(i), ranges[i], ctx, e)
  }

  lemma RangesErrorsAreFaults(path: nat -> Path, ranges: seq<ByteRange>, ctx: SourceContext, e: ValidationError)
    ensures e in RangesErrors(path, ranges, ctx) <==> IsRangesFault(path, ranges, ctx, e)
  {
    var faults := RangeFaults(path, ranges, ctx);
    InCollected(faults, |ranges|, e);
    forall i: nat | i < |ranges|
      ensures e in faults(i) <==> RangeFault(path(i), ranges[i], ctx, e)
    {
      RangeErrorsAreFaults(path(i), ranges[i], ctx, e);
    }
  }

  ghost predicate IsDiagnosticFault(diagnostics: seq<Diagnostic>, ctx: SourceContext, e: ValidationError) {
    exists i: nat :: i < |diagnostics|
      && RangeFault([Field(DiagnosticsField), Index(i), Field(ByteRangeField)], diagnostics[i].byteRange, ctx, e)
  }

  lemma DiagnosticErrorsAreFaults(diagnostics: seq<Diagnostic>, ctx: SourceContext, e: ValidationError)
    ensures e in RangesErrors(DIAGNOSTIC_RANGE_PATH, DiagnosticRanges(diagnostics), ctx)
            <==> IsDiagnosticFault(diagnostics, ctx, e)
  {
    var ranges := DiagnosticRanges(diagnostics);
    RangesErrorsAreFaults(DIAGNOSTIC_RANGE_PATH, ranges, ctx, e);
    forall i: nat | i < |diagnostics|
      ensures RangeFault(DIAGNOSTIC_RANGE_PATH(i), ranges[i], ctx, e)
              <==> RangeFault([Field(DiagnosticsField), Index(i), Field(ByteRangeField)], diagnostics[i].byteRange, ctx, e)
    {
    }
  }

  ghost predicate StepFault(steps: seq<DerivationStep>, ctx: SourceContext, i: nat, e: ValidationError)
    requires i < |steps|
  {
    var step, path := steps[i], [Field(DerivationField), Index(i)];
    || (e == MissingDerivationIdentity(path) && (step.passId == "" || step.ruleId == ""))
    || (e == DuplicateDerivationPassId(path, step.passId) && exists k :: 0 <= k < i && steps[k].passId == step.passId)
    || exists j: nat :: j < |step.sourceRanges|
         && RangeFault(path + [Field(SourceRangesField), Index(j)], step.sourceRanges[j], ctx, e)
  }

  lemma StepErrorsAreFaultsAt(steps: seq<DerivationStep>, ctx: SourceContext, i: nat, e: ValidationError)
    requires i < |steps|
    ensures e in StepErrorsAt(steps, ctx, i) <==> StepFault(steps, ctx, i, e)
  {
    RangesErrorsAreFaults(StepRangePath(i), steps[i].sourceRanges, ctx, e);
    assert IsRangesFault(StepRangePath(i), steps[i].sourceRanges, ctx, e)
      <==> exists j: nat :: j < |steps[i].sourceRanges|
             && RangeFault([Field(DerivationField), Index(i)] + [Field(SourceRangesField), Index(j)],
                           steps[i].sourceRanges[j], ctx, e);
  }

  ghost predicate IsDerivationFault(steps: seq<DerivationStep>, ctx: SourceContext, e: ValidationError) {
    || (steps == [] && e == EmptyDerivation([Field(DerivationField)]))
    || exists i: nat :: i < |steps| && StepFault(steps, ctx, i, e)
  }

  lemma DerivationErrorsAreFaults(steps: seq<DerivationStep>, ctx: SourceContext, e: ValidationError)
    ensures e in DerivationErrors(steps, ctx) <==> IsDerivationFault(steps, ctx, e)
  {
    var faults := StepFaults(steps, ctx);
    InCollected(faults, |steps|, e);
    forall i: nat | i < |steps|
      ensures e in faults(i) <==> StepFault(steps, ctx, i, e)
    {
      StepErrorsAreFaultsAt(steps, ctx, i, e);
    }
  }

  // ----- Identity and source -----

  predicate IsContractFault(document: DocumentAnalysis, contract: Contract, e: ValidationError) {
    match e
    case UnsupportedContractVersion(at, found) =>
      at == [Field(ContractVersionField)] && found == document.contractVersion != contract.version
    case SchemaHashMismatch(at, expected, found) =>
      at == [Field(SchemaHashField)] && found == document.schemaHash != contract.schemaHash == expected
    case VocabularyHashMismatch(at, expected, found) =>
      at == [Field(VocabularyHashField)] && found == document.vocabularyHash != contract.vocabularyHash == expected
    case _ => false
  }

  predicate IsSourceFault(artifact: SourceArtifact, source: Option<SourceBytes>, contract: Contract, e: ValidationError) {
    match e
    case NegativeByteLength(at, value) =>
      at == [Field(SourceField), Field(Utf8ByteLengthField)] && value == artifact.utf8ByteLength < 0
    case ByteLengthMismatch(at, declared, actual) =>
      at == [Field(SourceField), Field(Utf8ByteLengthField)] && source.Some?
      && declared == artifact.utf8ByteLength != actual
      && actual == (match source.value case Utf8(text) => ByteLen(text) case NotUtf8(length) => length)
    case SourceNotUtf8(at) => at == [Field(SourceField)] && source.Some? && source.value.NotUtf8?
    case ContentHashMismatch(at, expected, found) =>
      at == [Field(SourceField), Field(ContentHashField)] && source.Some? && source.value.Utf8?
      && expected == contract.sha256(source.value.text) != artifact.contentHash == found
    case _ => false
  }

  lemma ContractErrorsAreFaults(document: DocumentAnalysis, contract: Contract, e: ValidationError)
    ensures e in ContractErrors(document, contract) <==> IsContractFault(document, contract, e)
  {
  }

  lemma SourceErrorsAreFaults(artifact: SourceArtifact, source: Option<SourceBytes>, contract: Contract, e: ValidationError)
    ensures e in SourceErrors(artifact, source, contract) <==> IsSourceFault(artifact, source, contract, e)
  {
    match source {
      case None =>
      case Some(Utf8(text)) =>
      case Some(NotUtf8(length)) =>
    }
  }

  // ----- The whole document -----

  ghost predicate IsFault(document: DocumentAnalysis, source: Option<SourceBytes>, contract: Contract, e: ValidationError) {
    var ctx := ContextOf(document.source, source);
    || IsContractFault(document, contract, e)
    || IsSourceFault(document.source, source, contract, e)
    || IsTokenFault(document.tokens, ctx, e)
    || IsAxesFault(document.tokens, e)
    || IsNodeFault(document.structure, ctx, e)
    || IsEdgeFault(document.structure, e)
    || IsCycleFault(document.structure, e)
    || IsDiagnosticFault(document.diagnostics, ctx, e)
    || IsDerivationFault(document.derivation, ctx, e)
  }

  /** The validator lists exactly the faults the document has, each at its place and with its values. */
  lemma ErrorsAreTheFaults(document: DocumentAnalysis, source: Option<SourceBytes>, contract: Contract, e: ValidationError)
    ensures var ctx := ContextOf(document.source, source);
            e in ContractErrors(document, contract)
                 + SourceErrors(document.source, source, contract)
                 + TokenErrors(document.tokens, ctx)
                 + AxesErrors(document.tokens)
                 + StructureErrors(document.structure, ctx)
                 + RangesErrors(DIAGNOSTIC_RANGE_PATH, DiagnosticRanges(document.diagnostics), ctx)
                 + DerivationErrors(document.derivation, ctx)
            <==> IsFault(document, source, contract, e)
  {
    var ctx := ContextOf(document.source, source);
    ContractErrorsAreFaults(document, contract, e);
    SourceErrorsAreFaults(document.source, source, contract, e);
    TokenErrorsAreFaults(document.tokens, ctx, e);
    AxesErrorsAreFaults(document.tokens, e);
    NodeErrorsAreFaults(document.structure, ctx, e);
    EdgeErrorsAreFaults(document.structure, e);
    CycleErrorsAreFaults(document.structure, e);
    DiagnosticErrorsAreFaults(document.diagnostics, ctx, e);
    DerivationErrorsAreFaults(document.derivation, ctx, e);
  }
}
