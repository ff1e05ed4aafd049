/**
  The wire document of `colorful.syntax/v1`, the place an error points at, and
  every error the validator can report. Offsets, lengths, depths and ids are
  32-bit signed integers, so a received document may carry negative ones.
 */
module IrDocument {
  import opened Text
  import opened Syntax

  datatype ByteRange = ByteRange(startUtf8: i32, endUtf8: i32)

  datatype TokenKind = WordKind | NumberKind | PunctuationKind | QuoteKind

  datatype LexicalClass = FunctionClass | ContentClass | ProperNounCandidate

  datatype IrToken = IrToken(
    occurrenceId: i32,
    byteRange: ByteRange,
    tokenKind: TokenKind,
    lexicalClass: Option<LexicalClass>,
    functionKind: Option<FunctionKind>,
    openClassKind: Option<OpenClassKind>)

  datatype OutlineKind = ParagraphOutline | SentenceOutline

  datatype OutlineNode = OutlineNode(
    nodeId: i32,
    kind: OutlineKind,
    byteRange: ByteRange,
    depth: i32,
    childNodeIds: seq<i32>)

  datatype DerivationStep = DerivationStep(
    passId: string,
    ruleId: string,
    sourceRanges: seq<ByteRange>,
    compilerBuildHash: string)

  datatype SourceArtifact = SourceArtifact(unitId: string, contentHash: string, utf8ByteLength: i32)

  datatype Diagnostic = Diagnostic(byteRange: ByteRange, severity: Severity, code: string, message: string)

  datatype Severity = ErrorSeverity | WarningSeverity | InfoSeverity

  datatype DocumentAnalysis = DocumentAnalysis(
    contractVersion: string,
    schemaHash: string,
    vocabularyHash: string,
    source: SourceArtifact,
    tokens: seq<IrToken>,
    structure: seq<OutlineNode>,
    diagnostics: seq<Diagnostic>,
    derivation: seq<DerivationStep>)

  /** The identity of this build of the contract; SHA-256 is an unspecified function of the source. */
  datatype Contract = Contract(
    version: string,
    schemaHash: string,
    vocabularyHash: string,
    buildHash: string,
    sha256: string -> string)

  /** Source bytes handed to the validator: the encoding of a text, or bytes that are not UTF-8. */
  datatype SourceBytes = Utf8(text: string) | NotUtf8(length: nat)

  // ----- Where an error points -----

  datatype FieldName =
    | ContractVersionField | SchemaHashField | VocabularyHashField
    | SourceField | Utf8ByteLengthField | ContentHashField
    | TokensField | StructureField | DiagnosticsField | DerivationField
    | ByteRangeField | StartUtf8Field | EndUtf8Field
    | ChildNodeIdsField | DepthField | SourceRangesField

  datatype Segment = Field(name: FieldName) | Index(index: nat)

  type Path = seq<Segment>

  datatype AxesFault =
    | WordWithoutLexicalClass
    | FunctionKindOffFunctionWord
    | FunctionWordWithoutFunctionKind
    | OpenClassKindOffContentWord
    | LexicalClassOnNonWord
    | FunctionKindOnNonWord
    | OpenClassKindOnNonWord

  datatype ValidationError =
    | UnsupportedContractVersion(path: Path, found: string)
    | SchemaHashMismatch(path: Path, expected: string, found: string)
    | VocabularyHashMismatch(path: Path, expected: string, found: string)
    | ContentHashMismatch(path: Path, expected: string, found: string)
    | ByteLengthMismatch(path: Path, declared: i32, actual: nat)
    | NegativeByteLength(path: Path, value: i32)
    | SourceNotUtf8(path: Path)
    | NegativeOffset(path: Path, value: i32)
    | RangeOutOfOrder(path: Path, start: i32, end: i32)
    | RangeOutOfBounds(path: Path, end: i32, length: nat)
    | RangeNotOnCharBoundary(path: Path, offset: i32)
    | EmptyTokenRange(path: Path, occurrenceId: i32)
    | UnsortedTokenRange(path: Path, previousIndex: nat, previousStart: i32, start: i32)
    | OverlappingTokenRange(path: Path, previousIndex: nat, previousEnd: i32, start: i32)
    | IllegalTokenAxes(path: Path, occurrenceId: i32, detail: AxesFault)
    | DuplicateTokenId(path: Path, occurrenceId: i32)
    | DuplicateNodeId(path: Path, nodeId: i32)
    | DanglingChildRef(path: Path, child: i32)
    | InvalidOutlineDepth(path: Path, depth: i32, expectedDepth: i32)
    | StructureCycle(path: Path, parent: i32, child: i32)
    | MultipleStructureParents(path: Path, child: i32, firstParent: i32, secondParent: i32)
    | ChildRangeOutsideParent(path: Path, parent: i32, child: i32)
    | MissingDerivationIdentity(path: Path)
    | DuplicateDerivationPassId(path: Path, passId: string)
    | EmptyDerivation(path: Path)
}
