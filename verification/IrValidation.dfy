/** The seven validators of a received document, and the document they accept. */
module IrValidation {
  import opened Sequences
  import opened Text
  import opened IrDocument
  import opened IrRanges
  import opened StructureValidation

  // ----- Identity -----

  function ContractErrors(document: DocumentAnalysis, contract: Contract): (errors: seq<ValidationError>)
    ensures errors == [] <==>
              && document.contractVersion == contract.version
              && document.schemaHash == contract.schemaHash
              && document.vocabularyHash == contract.vocabularyHash
  {
    (if document.contractVersion != contract.version then
       [UnsupportedContractVersion([Field(ContractVersionField)], document.contractVersion)] else [])
    + (if document.schemaHash != contract.schemaHash then
         [SchemaHashMismatch([Field(SchemaHashField)], contract.schemaHash, document.schemaHash)] else [])
    + (if document.vocabularyHash != contract.vocabularyHash then
         [VocabularyHashMismatch([Field(VocabularyHashField)], contract.vocabularyHash, document.vocabularyHash)] else [])
  }

  function LengthOf(bytes: SourceBytes): nat {
    match bytes
    case Utf8(text) => ByteLen(text)
    case NotUtf8(length) => length
  }

  const LENGTH_PATH: Path := [Field(SourceField), Field(Utf8ByteLengthField)]

  function SourceErrors(artifact: SourceArtifact, source: Option<SourceBytes>, contract: Contract): seq<ValidationError> {
    (if artifact.utf8ByteLength < 0 then [NegativeByteLength(LENGTH_PATH, artifact.utf8ByteLength)] else [])
    + match source
      case None => []
      case Some(bytes) =>
        (if artifact.utf8ByteLength != LengthOf(bytes) then
           [ByteLengthMismatch(LENGTH_PATH, artifact.utf8ByteLength, LengthOf(bytes))] else [])
        + match bytes
          case NotUtf8(_) => [SourceNotUtf8([Field(SourceField)])]
          case Utf8(text) =>
            if artifact.contentHash != contract.sha256(text) then
              [ContentHashMismatch([Field(SourceField), Field(ContentHashField)], contract.sha256(text), artifact.contentHash)]
            else []
  }

  /** What range checks are made against: the real bytes when there are any, else the declared length. */
  function ContextOf(artifact: SourceArtifact, source: Option<SourceBytes>): (ctx: SourceContext)
    ensures ctx.Valid()
    ensures source.Some? ==> ctx.length == LengthOf(source.value) && (ctx.text.Some? <==> source.value.Utf8?)
    ensures source.None? ==> ctx.text.None? && ctx.length == if artifact.utf8ByteLength < 0 then 0 else artifact.utf8ByteLength
  {
    match source
    case None => SourceContext(if artifact.utf8ByteLength < 0 then 0 else artifact.utf8ByteLength, None)
    case Some(Utf8(text)) => SourceContext(ByteLen(text), Some(text))
    case Some(NotUtf8(length)) => SourceContext(length, None)
  }

  /** A declared length that is a length and, given bytes, theirs; given bytes, they decode and hash as declared. */
  predicate SourceOk(artifact: SourceArtifact, source: Option<SourceBytes>, contract: Contract) {
    && artifact.utf8ByteLength >= 0
    && (source.Some? ==>
          && source.value.Utf8?
          && artifact.utf8ByteLength == ByteLen(source.value.text)
          && artifact.contentHash == contract.sha256(source.value.text))
  }

  lemma NoSourceErrors(artifact: SourceArtifact, source: Option<SourceBytes>, contract: Contract)
    ensures SourceErrors(artifact, source, contract) == [] <==> SourceOk(artifact, source, contract)
  {
  }

  // ----- Token ranges -----

  function TokenPath(i: nat): Path {
    [Field(TokensField), Index(i)]
  }

  function TokenRangePath(i: nat): Path {
    AtField(TokenPath(i), ByteRangeField)
  }

  predicate RepeatsTokenId(tokens: seq<IrToken>, i: nat)
    requires i < |tokens|
  {
    exists k :: 0 <= k < i && tokens[k].occurrenceId == tokens[i].occurrenceId
  }

  /** A token against the one before it. */
  function OrderErrors(tokens: seq<IrToken>, i: nat): seq<ValidationError>
    requires i < |tokens|
  {
    if i == 0 then []
    else
      var path := AtField(TokenRangePath(i), StartUtf8Field);
      var previous, here := tokens[i - 1].byteRange, tokens[i].byteRange;
      if here.startUtf8 < previous.startUtf8 then
        [UnsortedTokenRange(path, i - 1, previous.startUtf8, here.startUtf8)]
      else if here.startUtf8 < previous.endUtf8 then
        [OverlappingTokenRange(path, i - 1, previous.endUtf8, here.startUtf8)]
      else []
  }

  function TokenErrorsAt(tokens: seq<IrToken>, ctx: SourceContext, i: nat): seq<ValidationError>
    requires i < |tokens|
  {
    var token := tokens[i];
    RangeErrors(TokenRangePath(i), token.byteRange, ctx)
    + (if token.byteRange.startUtf8 == token.byteRange.endUtf8 then
         [EmptyTokenRange(TokenRangePath(i), token.occurrenceId)] else [])
    + OrderErrors(tokens, i)
    + (if RepeatsTokenId(tokens, i) then [DuplicateTokenId(TokenPath(i), token.occurrenceId)] else [])
  }

  function TokenFaults(tokens: seq<IrToken>, ctx: SourceContext): nat -> seq<ValidationError> {
    (i: nat) => if i < |tokens| then TokenErrorsAt(tokens, ctx, i) else []
  }

  function TokenErrorsUpTo(tokens: seq<IrToken>, ctx: SourceContext, n: nat): seq<ValidationError> {
    Collect(TokenFaults(tokens, ctx), n)
  }

  function TokenErrors(tokens: seq<IrToken>, ctx: SourceContext): seq<ValidationError> {
    TokenErrorsUpTo(tokens, ctx, |tokens|)
  }

  lemma NextTokenErrors(tokens: seq<IrToken>, ctx: SourceContext, i: nat)
    requires i < |tokens|
    ensures TokenErrorsUpTo(tokens, ctx, i + 1) == TokenErrorsUpTo(tokens, ctx, i) + TokenErrorsAt(tokens, ctx, i)
  {
  }

  predicate TokenOk(tokens: seq<IrToken>, ctx: SourceContext, i: nat)
    requires i < |tokens|
  {
    && RangeOk(tokens[i].byteRange, ctx)
    && tokens[i].byteRange.startUtf8 != tokens[i].byteRange.endUtf8
    && (i > 0 ==>
          && tokens[i - 1].byteRange.startUtf8 <= tokens[i].byteRange.startUtf8
          && tokens[i - 1].byteRange.endUtf8 <= tokens[i].byteRange.startUtf8)
    && !RepeatsTokenId(tokens, i)
  }

  lemma NoTokenErrorsAt(tokens: seq<IrToken>, ctx: SourceContext, i: nat)
    requires ctx.Valid() && i < |tokens|
    ensures TokenErrorsAt(tokens, ctx, i) == [] <==> TokenOk(tokens, ctx, i)
  {
    RangeErrorsFindEveryFault(TokenRangePath(i), tokens[i].byteRange, ctx);
  }

  predicate TokensOk(tokens: seq<IrToken>, ctx: SourceContext) {
    forall i :: 0 <= i < |tokens| ==> TokenOk(tokens, ctx, i)
  }

  lemma NoTokenErrors(tokens: seq<IrToken>, ctx: SourceContext)
    requires ctx.Valid()
    ensures TokenErrors(tokens, ctx) == [] <==> TokensOk(tokens, ctx)
  {
    var faults := TokenFaults(tokens, ctx);
    CollectsNothing(faults, |tokens|);
    forall i: nat | i < |tokens|
      ensures faults(i) == [] <==> TokenOk(tokens, ctx, i)
    {
      NoTokenErrorsAt(tokens, ctx, i);
    }
  }

  /** Accepted tokens are non-empty and apart, in wire order, however far apart in the list. */
  lemma {:induction false} AcceptedTokensAreDisjoint(tokens: seq<IrToken>, ctx: SourceContext, i: nat, k: nat)
    requires TokensOk(tokens, ctx) && i < k < |tokens|
    ensures tokens[i].byteRange.startUtf8 < tokens[i].byteRange.endUtf8 <= tokens[k].byteRange.startUtf8
    ensures tokens[i].occurrenceId != tokens[k].occurrenceId
    decreases k
  {
    assert TokenOk(tokens, ctx, i) && TokenOk(tokens, ctx, k);
    if i < k - 1 {
      AcceptedTokensAreDisjoint(tokens, ctx, i, k - 1);
      assert TokenOk(tokens, ctx, k - 1);
    }
  }

  predicate SeenTokenIds(tokens: seq<IrToken>, n: nat, seen: set<i32>)
    requires n <= |tokens|
  {
    seen == set i | 0 <= i < n :: tokens[i].occurrenceId
  }

  /** The faults of one token, against the token before it and the ids seen. */
  method ValidateToken(tokens: seq<IrToken>, ctx: SourceContext, i: nat, seen: set<i32>)
    returns (seen': set<i32>, errors: seq<ValidationError>)
    requires ctx.Valid() && i < |tokens| && SeenTokenIds(tokens, i, seen)
    ensures SeenTokenIds(tokens, i + 1, seen')
    ensures errors == TokenErrorsAt(tokens, ctx, i)
  {
    var token := tokens[i];
    errors := CheckRange(TokenRangePath(i), token.byteRange, ctx);
    if token.byteRange.startUtf8 == token.byteRange.endUtf8 {
      errors := errors + [EmptyTokenRange(TokenRangePath(i), token.occurrenceId)];
    }
    errors := errors + OrderErrors(tokens, i);
    if token.occurrenceId in seen {
      errors := errors + [DuplicateTokenId(TokenPath(i), token.occurrenceId)];
    }
    seen' := seen + {token.occurrenceId};
  }

  method ValidateTokenRanges(tokens: seq<IrToken>, ctx: SourceContext) returns (errors: seq<ValidationError>)
    requires ctx.Valid()
    ensures errors == TokenErrors(tokens, ctx)
    ensures errors == [] <==> TokensOk(tokens, ctx)
  {
    errors := [];
    var seen: set<i32> := {};
    for i := 0 to |tokens|
      invariant errors == TokenErrorsUpTo(tokens, ctx, i)
      invariant SeenTokenIds(tokens, i, seen)
    {
      var faults;
      seen, faults := ValidateToken(tokens, ctx, i, seen);
      errors := errors + faults;
      NextTokenErrors(tokens, ctx, i);
    }
    NoTokenErrors(tokens, ctx);
  }

  // ----- Token axes -----

  function FunctionWordViolation(token: IrToken): Option<AxesFault> {
    if token.functionKind.None? then Some(FunctionWordWithoutFunctionKind)
    else if token.openClassKind.Some? then Some(OpenClassKindOffContentWord)
    else None
  }

  function ProperNounViolation(token: IrToken): Option<AxesFault> {
    if token.functionKind.Some? then Some(FunctionKindOffFunctionWord)
    else if token.openClassKind.Some? then Some(OpenClassKindOffContentWord)
    else None
  }

  function WordViolation(token: IrToken): Option<AxesFault> {
    match token.lexicalClass
    case None => Some(WordWithoutLexicalClass)
    case Some(FunctionClass) => FunctionWordViolation(token)
    case Some(ContentClass) => if token.functionKind.Some? then Some(FunctionKindOffFunctionWord) else None
    case Some(ProperNounCandidate) => ProperNounViolation(token)
  }

  function NonWordViolation(token: IrToken): Option<AxesFault> {
    if token.lexicalClass.Some? then Some(LexicalClassOnNonWord)
    else if token.functionKind.Some? then Some(FunctionKindOnNonWord)
    else if token.openClassKind.Some? then Some(OpenClassKindOnNonWord)
    else None
  }

  function AxesViolation(token: IrToken): Option<AxesFault> {
    if token.tokenKind == WordKind then WordViolation(token) else NonWordViolation(token)
  }

  /** The contract's rule, axis by axis. */
  predicate LegalAxes(token: IrToken) {
    && (token.tokenKind == WordKind <==> token.lexicalClass.Some?)
    && (token.functionKind.Some? <==> token.lexicalClass == Some(FunctionClass))
    && (token.openClassKind.Some? ==> token.lexicalClass == Some(ContentClass))
  }

  function AxesErrorsAt(tokens: seq<IrToken>, i: nat): seq<ValidationError>
    requires i < |tokens|
  {
    match AxesViolation(tokens[i])
    case None => []
    case Some(detail) => [IllegalTokenAxes(TokenPath(i), tokens[i].occurrenceId, detail)]
  }

  function AxesFaults(tokens: seq<IrToken>): nat -> seq<ValidationError> {
    (i: nat) => if i < |tokens| then AxesErrorsAt(tokens, i) else []
  }

  function AxesErrors(tokens: seq<IrToken>): seq<ValidationError> {
    Collect(AxesFaults(tokens), |tokens|)
  }

  lemma NoAxesErrors(tokens: seq<IrToken>)
    ensures AxesErrors(tokens) == [] <==> forall i :: 0 <= i < |tokens| ==> LegalAxes(tokens[i])
  {
    var faults := AxesFaults(tokens);
    CollectsNothing(faults, |tokens|);
    assert forall i: nat :: i < |tokens| ==> (faults(i) == [] <==> LegalAxes(tokens[i]));
  }

  method ValidateTokenAxes(tokens: seq<IrToken>) returns (errors: seq<ValidationError>)
    ensures errors == AxesErrors(tokens)
    ensures errors == [] <==> forall i :: 0 <= i < |tokens| ==> LegalAxes(tokens[i])
  {
    NoAxesErrors(tokens);
    errors := [];
    for i := 0 to |tokens|
      invariant errors == Collect(AxesFaults(tokens), i)
    {
      var violation := AxesViolation(tokens[i]);
      if violation.Some? {
        errors := errors + [IllegalTokenAxes(TokenPath(i), tokens[i].occurrenceId, violation.value)];
      }
    }
  }

  // ----- Lists of ranges -----

  function RangeFaults(path: nat -> Path, ranges: seq<ByteRange>, ctx: SourceContext): nat -> seq<ValidationError> {
    (i: nat) => if i < |ranges| then RangeErrors(path(i), ranges[i], ctx) else []
  }

  function RangesErrorsUpTo(path: nat -> Path, ranges: seq<ByteRange>, ctx: SourceContext, n: nat): seq<ValidationError> {
    Collect(RangeFaults(path, ranges, ctx), n)
  }

  function RangesErrors(path: nat -> Path, ranges: seq<ByteRange>, ctx: SourceContext): seq<ValidationError> {
    RangesErrorsUpTo(path, ranges, ctx, |ranges|)
  }

  lemma NextRangeErrors(path: nat -> Path, ranges: seq<ByteRange>, ctx: SourceContext, i: nat)
    requires i < |ranges|
    ensures RangesErrorsUpTo(path, ranges, ctx, i + 1)
            == RangesErrorsUpTo(path, ranges, ctx, i) + RangeErrors(path(i), ranges[i], ctx)
  {
  }

  predicate RangesOk(ranges: seq<ByteRange>, ctx: SourceContext) {
    forall i :: 0 <= i < |ranges| ==> RangeOk(ranges[i], ctx)
  }

  /** Checks a list of ranges, the `i`-th of them at `path(i)`. */
  method CheckRanges(path: nat -> Path, ranges: seq<ByteRange>, ctx: SourceContext)
    returns (errors: seq<ValidationError>)
    requires ctx.Valid()
    ensures errors == RangesErrors(path, ranges, ctx)
    ensures errors == [] <==> RangesOk(ranges, ctx)
  {
    errors := [];
    for i := 0 to |ranges|
      invariant errors == RangesErrorsUpTo(path, ranges, ctx, i)
      invariant errors == [] <==> forall k :: 0 <= k < i ==> RangeOk(ranges[k], ctx)
    {
      var faults := CheckRange(path(i), ranges[i], ctx);
      errors := errors + faults;
      NextRangeErrors(path, ranges, ctx, i);
    }
  }

  // ----- Diagnostics -----

  const DIAGNOSTIC_RANGE_PATH: nat -> Path := (i: nat) => [Field(DiagnosticsField), Index(i), Field(ByteRangeField)]

  function DiagnosticRanges(diagnostics: seq<Diagnostic>): seq<ByteRange> {
    seq(|diagnostics|, i requires 0 <= i < |diagnostics| => diagnostics[i].byteRange)
  }

  // ----- Derivation -----

  function StepPath(i: nat): Path {
    [Field(DerivationField), Index(i)]
  }

  function StepRangePath(i: nat): nat -> Path {
    (j: nat) => StepPath(i) + [Field(SourceRangesField), Index(j)]
  }

  predicate RepeatsPassId(steps: seq<DerivationStep>, i: nat)
    requires i < |steps|
  {
    exists k :: 0 <= k < i && steps[k].passId == steps[i].passId
  }

  function StepErrorsAt(steps: seq<DerivationStep>, ctx: SourceContext, i: nat): seq<ValidationError>
    requires i < |steps|
  {
    var step := steps[i];
    (if step.passId == "" || step.ruleId == "" then [MissingDerivationIdentity(StepPath(i))] else [])
    + (if RepeatsPassId(steps, i) then [DuplicateDerivationPassId(StepPath(i), step.passId)] else [])
    + RangesErrors(StepRangePath(i), step.sourceRanges, ctx)
  }

  function StepFaults(steps: seq<DerivationStep>, ctx: SourceContext): nat -> seq<ValidationError> {
    (i: nat) => if i < |steps| then StepErrorsAt(steps, ctx, i) else []
  }

  function StepErrorsUpTo(steps: seq<DerivationStep>, ctx: SourceContext, n: nat): seq<ValidationError> {
    Collect(StepFaults(steps, ctx), n)
  }

  lemma NextStepErrors(steps: seq<DerivationStep>, ctx: SourceContext, i: nat)
    requires i < |steps|
    ensures StepErrorsUpTo(steps, ctx, i + 1) == StepErrorsUpTo(steps, ctx, i) + StepErrorsAt(steps, ctx, i)
  {
  }

  function DerivationErrors(steps: seq<DerivationStep>, ctx: SourceContext): seq<ValidationError> {
    (if steps == [] then [EmptyDerivation([Field(DerivationField)])] else [])
    + StepErrorsUpTo(steps, ctx, |steps|)
  }

  predicate StepOk(steps: seq<DerivationStep>, ctx: SourceContext, i: nat)
    requires i < |steps|
  {
    steps[i].passId != "" && steps[i].ruleId != "" && !RepeatsPassId(steps, i) && RangesOk(steps[i].sourceRanges, ctx)
  }

  predicate DerivationOk(steps: seq<DerivationStep>, ctx: SourceContext) {
    steps != [] && StepsOk(steps, ctx, |steps|)
  }

  predicate SeenPassIds(steps: seq<DerivationStep>, n: nat, seen: set<string>)
    requires n <= |steps|
  {
    seen == set i | 0 <= i < n :: steps[i].passId
  }

  method ValidateStep(steps: seq<DerivationStep>, ctx: SourceContext, i: nat, seen: set<string>)
    returns (seen': set<string>, errors: seq<ValidationError>)
    requires ctx.Valid() && i < |steps| && SeenPassIds(steps, i, seen)
    ensures SeenPassIds(steps, i + 1, seen')
    ensures errors == StepErrorsAt(steps, ctx, i)
    ensures errors == [] <==> StepOk(steps, ctx, i)
  {
    var step := steps[i];
    errors := [];
    if step.passId == "" || step.ruleId == "" {
      errors := [MissingDerivationIdentity(StepPath(i))];
    }
    if step.passId in seen {
      errors := errors + [DuplicateDerivationPassId(StepPath(i), step.passId)];
    }
    seen' := seen + {step.passId};
    var faults := CheckRanges(StepRangePath(i), step.sourceRanges, ctx);
    errors := errors + faults;
  }

  predicate StepsOk(steps: seq<DerivationStep>, ctx: SourceContext, n: nat)
    requires n <= |steps|
  {
    forall i :: 0 <= i < n ==> StepOk(steps, ctx, i)
  }

  method ValidateSteps(steps: seq<DerivationStep>, ctx: SourceContext) returns (errors: seq<ValidationError>)
    requires ctx.Valid()
    ensures errors == StepErrorsUpTo(steps, ctx, |steps|)
    ensures errors == [] <==> StepsOk(steps, ctx, |steps|)
  {
    errors := [];
    var seen: set<string> := {};
    for i := 0 to |steps|
      invariant errors == StepErrorsUpTo(steps, ctx, i)
      invariant errors == [] <==> StepsOk(steps, ctx, i)
      invariant SeenPassIds(steps, i, seen)
    {
      var faults;
      seen, faults := ValidateStep(steps, ctx, i, seen);
      errors := errors + faults;
      NextStepErrors(steps, ctx, i);
    }
  }

  method ValidateDerivation(steps: seq<DerivationStep>, ctx: SourceContext) returns (errors: seq<ValidationError>)
    requires ctx.Valid()
    ensures errors == DerivationErrors(steps, ctx)
    ensures errors == [] <==> DerivationOk(steps, ctx)
  {
    errors := [];
    if steps == [] {
      errors := [EmptyDerivation([Field(DerivationField)])];
    }
    var faults := ValidateSteps(steps, ctx);
    errors := errors + faults;
  }

  // ----- The whole document -----

  /** Everything a consumer may rely on in an accepted document. */
  ghost predicate DocumentOk(document: DocumentAnalysis, source: Option<SourceBytes>, contract: Contract) {
    var ctx := ContextOf(document.source, source);
    && document.contractVersion == contract.version
    && document.schemaHash == contract.schemaHash
    && document.vocabularyHash == contract.vocabularyHash
    && SourceOk(document.source, source, contract)
    && TokensOk(document.tokens, ctx)
    && (forall i :: 0 <= i < |document.tokens| ==> LegalAxes(document.tokens[i]))
    && OutlineOk(document.structure, ctx)
    && RangesOk(DiagnosticRanges(document.diagnostics), ctx)
    && DerivationOk(document.derivation, ctx)
  }

  /** Runs all seven validators and concatenates what they find, in that order. */
  method ValidateDocument(document: DocumentAnalysis, source: Option<SourceBytes>, contract: Contract)
    returns (errors: seq<ValidationError>)
    ensures errors == [] <==> DocumentOk(document, source, contract)
    ensures var ctx, ranges := ContextOf(document.source, source), DiagnosticRanges(document.diagnostics);
            errors == ContractErrors(document, contract)
                      + SourceErrors(document.source, source, contract)
                      + TokenErrors(document.tokens, ctx)
                      + AxesErrors(document.tokens)
                      + StructureErrors(document.structure, ctx)
                      + RangesErrors(DIAGNOSTIC_RANGE_PATH, ranges, ctx)
                      + DerivationErrors(document.derivation, ctx)
  {
    var ctx := ContextOf(document.source, source);
    NoSourceErrors(document.source, source, contract);
    var ranges := ValidateTokenRanges(document.tokens, ctx);
    var axes := ValidateTokenAxes(document.tokens);
    var structure := ValidateStructureGraph(document.structure, ctx);
    var diagnostics := CheckRanges(DIAGNOSTIC_RANGE_PATH, DiagnosticRanges(document.diagnostics), ctx);
    var derivation := ValidateDerivation(document.derivation, ctx);
    errors := ContractErrors(document, contract) + SourceErrors(document.source, source, contract)
              + ranges + axes + structure + diagnostics + derivation;
  }
}
