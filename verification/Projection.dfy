/**
  Projecting a classification onto the wire document. Whatever validates as a
  classification projects to a document its own validator accepts, unless a
  producer has no identity, a leaf is empty or a number does not fit 32 bits.
 */
module Projection {
  import opened Text
  import opened Syntax
  import Classification
  import opened IrDocument
  import opened IrRanges
  import opened StructureValidation
  import opened IrValidation
  import opened OutlineBuilder
  import opened ProjectedOutline

  datatype PassIdentity = PassIdentity(passId: string, ruleId: string) {
    predicate IsPresent() {
      passId != "" && ruleId != ""
    }
  }

  datatype Role = ParserRole | AnnotatorRole

  datatype ProjectionError =
    | InvalidClassification(error: Classification.Error)
    | NumberTooLarge(overflow: Overflow)
    | MissingPassIdentity(role: Role)
    | DuplicatePassId(passId: string)
    | InvalidProjectedDocument(errors: seq<ValidationError>)

  datatype Result<+T> = Ok(value: T) | Err(error: ProjectionError)

  // ----- Token axes -----

  datatype Axes = Axes(
    tokenKind: TokenKind,
    lexicalClass: Option<LexicalClass>,
    functionKind: Option<FunctionKind>,
    openClassKind: Option<OpenClassKind>)

  function TokenAxes(pos: PosClass): Axes {
    match pos
    case Function(kind) => Axes(WordKind, Some(FunctionClass), Some(kind), None)
    case Content => Axes(WordKind, Some(ContentClass), None, None)
    case Open(kind) => Axes(WordKind, Some(ContentClass), None, Some(kind))
    case ProperNoun => Axes(WordKind, Some(ProperNounCandidate), None, None)
    case Number => Axes(NumberKind, None, None, None)
    case Punctuation => Axes(PunctuationKind, None, None, None)
    case Quote => Axes(QuoteKind, None, None, None)
  }

  function AxesOf(token: IrToken): Axes {
    Axes(token.tokenKind, token.lexicalClass, token.functionKind, token.openClassKind)
  }

  /** The class a legal combination of axes stands for. */
  function ClassOfAxes(axes: Axes): PosClass {
    match axes.tokenKind
    case NumberKind => Number
    case PunctuationKind => Punctuation
    case QuoteKind => Quote
    case WordKind =>
      match axes.lexicalClass
      case Some(FunctionClass) => (match axes.functionKind case Some(kind) => Function(kind) case None => Content)
      case Some(ProperNounCandidate) => ProperNoun
      case _ => match axes.openClassKind case Some(kind) => Open(kind) case None => Content
  }

  /** The validator accepts exactly the axes the projection emits, and no two classes share theirs. */
  lemma LegalAxesAreProjections(token: IrToken, pos: PosClass)
    ensures ClassOfAxes(TokenAxes(pos)) == pos
    ensures LegalAxes(token) <==> TokenAxes(ClassOfAxes(AxesOf(token))) == AxesOf(token)
  {
    if LegalAxes(token) {
      assert token.tokenKind != WordKind ==> token.lexicalClass.None?;
    }
  }

  // ----- Tokens -----

  /** Each axis says one thing about the class, and together they say all of it. */
  predicate ShowsClass(ir: IrToken, pos: PosClass) {
    && (ir.tokenKind == NumberKind <==> pos == Number)
    && (ir.tokenKind == PunctuationKind <==> pos == Punctuation)
    && (ir.tokenKind == QuoteKind <==> pos == Quote)
    && (ir.lexicalClass == Some(FunctionClass) <==> pos.Function?)
    && (ir.lexicalClass == Some(ContentClass) <==> pos == Content || pos.Open?)
    && (ir.lexicalClass == Some(ProperNounCandidate) <==> pos == ProperNoun)
    && ir.functionKind == (if pos.Function? then Some(pos.function_) else None)
    && ir.openClassKind == (if pos.Open? then Some(pos.open) else None)
  }

  lemma AxesShowTheClass(ir: IrToken, pos: PosClass)
    ensures ShowsClass(ir, pos) <==> AxesOf(ir) == TokenAxes(pos)
  {
    if ShowsClass(ir, pos) {
      match ir.lexicalClass {
        case None =>
        case Some(FunctionClass) =>
        case Some(ContentClass) =>
        case Some(ProperNounCandidate) =>
      }
    }
  }

  /** The token's index, span and class on the wire. */
  predicate IsProjected(token: Token, i: nat, ir: IrToken) {
    && ir.occurrenceId == i
    && ir.byteRange.startUtf8 == token.span.start && ir.byteRange.endUtf8 == token.span.end
    && ShowsClass(ir, token.pos)
  }

  predicate AllProjected(tokens: seq<Token>, n: nat, projected: seq<IrToken>)
    requires n <= |tokens|
  {
    |projected| == n && forall i :: 0 <= i < n ==> IsProjected(tokens[i], i, projected[i])
  }

  predicate TokenFits(tokens: seq<Token>, i: nat)
    requires i < |tokens|
  {
    i <= I32_MAX && SpanFits(tokens[i].span)
  }

  method ProjectTokens(tokens: seq<Token>) returns (projected: Narrowed<seq<IrToken>>)
    ensures projected.Fits? <==> forall i :: 0 <= i < |tokens| ==> TokenFits(tokens, i)
    ensures projected.Fits? ==> AllProjected(tokens, |tokens|, projected.value)
    ensures projected.TooLarge? ==> projected.overflow.value > I32_MAX
  {
    var done: seq<IrToken> := [];
    for i := 0 to |tokens|
      invariant AllProjected(tokens, i, done)
      invariant forall k :: 0 <= k < i ==> TokenFits(tokens, k)
    {
      var axes := TokenAxes(tokens[i].pos);
      var id := ToI32(TokenIndex, i);
      if id.TooLarge? {
        assert !TokenFits(tokens, i);
        return TooLarge(id.overflow);
      }
      var range := NarrowRange(tokens[i].span);
      if range.TooLarge? {
        assert !TokenFits(tokens, i);
        return TooLarge(range.overflow);
      }
      done := done + [IrToken(id.value, range.value, axes.tokenKind, axes.lexicalClass, axes.functionKind,
                              axes.openClassKind)];
    }
    return Fits(done);
  }

  // ----- When a classification projects -----

  predicate Filled(span: Span) {
    span.start < span.end
  }

  /** The spans of a validated token list. */
  predicate TokensOrdered(source: string, tokens: seq<Token>) {
    Classification.InOrder(Classification.TokenSpans(tokens))
    && Classification.AllValid(source, Classification.TokenSpans(tokens))
  }

  lemma ClassifiedTokensAreOrdered(source: string, tree: Tree, tokens: seq<Token>)
    requires Classification.TreeOk(source, tree) && Classification.OneToOne(tree, tokens)
    ensures TokensOrdered(source, tokens)
  {
    assert tree == Tree(Document(tree.root.sentences));
    Classification.LeavesAreOrdered(source, tree.root.sentences);
  }

  /** Non-empty tokens are no more than the bytes they cover. */
  lemma {:induction false} TokensFitTheirText(source: string, tokens: seq<Token>, n: nat)
    requires TokensOrdered(source, tokens) && n <= |tokens|
    requires forall i :: 0 <= i < n ==> Filled(tokens[i].span)
    ensures n > 0 ==> n <= tokens[n - 1].span.end
    decreases n
  {
    if n > 0 {
      TokensFitTheirText(source, tokens, n - 1);
      assert Filled(tokens[n - 1].span);
      var spans := Classification.TokenSpans(tokens);
      assert spans[n - 1] == tokens[n - 1].span;
      assert n > 1 ==> spans[n - 2] == tokens[n - 2].span && spans[n - 2].end <= spans[n - 1].start;
    }
  }

  predicate AllSentences(nodes: seq<Node>) {
    forall i :: 0 <= i < |nodes| ==> nodes[i].Sentence?
  }

  lemma {:induction false} SentenceSpanCount(sentences: seq<Node>)
    requires AllSentences(sentences)
    ensures |SentenceSpans(sentences)| == |sentences|
    decreases |sentences|
  {
    if sentences != [] {
      SentenceSpanCount(sentences[..|sentences| - 1]);
    }
  }

  lemma {:induction false} SentenceSpanAt(sentences: seq<Node>, i: nat)
    requires AllSentences(sentences) && i < |sentences| == |SentenceSpans(sentences)|
    ensures SentenceSpans(sentences)[i] == sentences[i].span
    decreases |sentences|
  {
    var n := |sentences| - 1;
    SentenceSpanCount(sentences[..n]);
    if i < n {
      SentenceSpanAt(sentences[..n], i);
    }
  }

  lemma SentenceSpansAreSpans(sentences: seq<Node>)
    requires AllSentences(sentences)
    ensures SentenceSpans(sentences) == Classification.Spans(sentences)
  {
    SentenceSpanCount(sentences);
    forall i | 0 <= i < |sentences|
      ensures SentenceSpans(sentences)[i] == Classification.Spans(sentences)[i]
    {
      SentenceSpanAt(sentences, i);
    }
  }

  /** What every sentence span of a validated tree satisfies. */
  lemma ClassifiedSentencesAreOk(source: string, tree: Tree)
    requires Classification.TreeOk(source, tree)
    ensures SentencesOk(source, SentenceSpans(tree.root.sentences))
  {
    forall i | 0 <= i < |tree.root.sentences|
      ensures tree.root.sentences[i].Sentence?
      ensures Classification.ValidSpan(source, Classification.Spans(tree.root.sentences)[i])
    {
      assert Classification.SentenceOk(source, tree.root.sentences[i]);
    }
    SentenceSpansAreSpans(tree.root.sentences);
  }

  // ----- The document built -----

  predicate AllFilled(tokens: seq<Token>) {
    forall i :: 0 <= i < |tokens| ==> Filled(tokens[i].span)
  }

  lemma ProjectedTokenIsOk(source: string, ctx: SourceContext, tokens: seq<Token>, projected: seq<IrToken>, i: nat)
    requires TokensOrdered(source, tokens) && AllProjected(tokens, |tokens|, projected) && i < |tokens|
    requires ctx == SourceContext(ByteLen(source), Some(source))
    ensures TokenOk(projected, ctx, i) <==> Filled(tokens[i].span)
    ensures LegalAxes(projected[i])
  {
    var spans := Classification.TokenSpans(tokens);
    assert Classification.ValidSpan(source, spans[i]) && IsProjected(tokens[i], i, projected[i]);
    if i > 0 {
      assert Classification.ValidSpan(source, spans[i - 1]) && IsProjected(tokens[i - 1], i - 1, projected[i - 1]);
    }
    forall k | 0 <= k < i
      ensures projected[k].occurrenceId != projected[i].occurrenceId
    {
      assert IsProjected(tokens[k], k, projected[k]);
    }
    LegalAxesAreProjections(projected[i], tokens[i].pos);
    AxesShowTheClass(projected[i], tokens[i].pos);
  }

  lemma ProjectedTokensAreOk(source: string, ctx: SourceContext, tokens: seq<Token>, projected: seq<IrToken>)
    requires TokensOrdered(source, tokens) && AllProjected(tokens, |tokens|, projected)
    requires ctx == SourceContext(ByteLen(source), Some(source))
    ensures TokensOk(projected, ctx) <==> AllFilled(tokens)
    ensures forall i :: 0 <= i < |projected| ==> LegalAxes(projected[i])
  {
    forall i | 0 <= i < |tokens|
      ensures TokenOk(projected, ctx, i) <==> Filled(tokens[i].span)
      ensures LegalAxes(projected[i])
    {
      ProjectedTokenIsOk(source, ctx, tokens, projected, i);
    }
  }

  function StepOf(identity: PassIdentity, whole: ByteRange, contract: Contract): DerivationStep {
    DerivationStep(identity.passId, identity.ruleId, [whole], contract.buildHash)
  }

  lemma TwoStepsAreOk(source: string, ctx: SourceContext, parser: PassIdentity, annotator: PassIdentity, contract: Contract)
    requires ByteLen(source) <= I32_MAX && ctx == SourceContext(ByteLen(source), Some(source))
    requires parser.IsPresent() && annotator.IsPresent() && parser.passId != annotator.passId
    ensures var whole := ByteRange(0, ByteLen(source));
            DerivationOk([StepOf(parser, whole, contract), StepOf(annotator, whole, contract)], ctx)
  {
    IndexOfOffset(source, 0);
    IndexOfOffset(source, |source|);
    var whole := ByteRange(0, ByteLen(source));
    var steps := [StepOf(parser, whole, contract), StepOf(annotator, whole, contract)];
    assert RangeOk(whole, ctx);
    assert StepOk(steps, ctx, 0) && StepOk(steps, ctx, 1);
  }

  function SpansOfTree(tree: Tree): seq<Span> {
    if tree.root.Document? then SentenceSpans(tree.root.sentences) else []
  }

  /** Every number of the document fits the wire. */
  predicate NumbersFit(source: string, tree: Tree, tokens: seq<Token>) {
    && ByteLen(source) <= I32_MAX && |tokens| <= I32_MAX + 1
    && IdsFit(ParagraphCount(BreaksOf(source, SpansOfTree(tree))), |SpansOfTree(tree)|)
  }

  predicate IdentitiesOk(parser: PassIdentity, annotator: PassIdentity) {
    parser.IsPresent() && annotator.IsPresent() && parser.passId != annotator.passId
  }

  /** Paragraphs hold the sentences between blank lines, in order; the outline is those paragraphs, then the sentences. */
  ghost predicate IsOutlineOf(source: string, spans: seq<Span>, nodes: seq<OutlineNode>) {
    if spans == [] then nodes == []
    else exists paragraphs :: Grouped(BreaksOf(source, spans), |spans|, paragraphs) && Built(spans, paragraphs, nodes)
  }

  predicate IsStepOf(step: DerivationStep, identity: PassIdentity, source: string) {
    step.passId == identity.passId && step.ruleId == identity.ruleId
    && |step.sourceRanges| == 1
    && step.sourceRanges[0].startUtf8 == 0 && step.sourceRanges[0].endUtf8 == ByteLen(source)
  }

  /** What a document says of the unit, the tree, the tokens and the two passes it was projected from. */
  ghost predicate ProjectedFrom(unitId: string, source: string, tree: Tree, tokens: seq<Token>,
                                parser: PassIdentity, annotator: PassIdentity, document: DocumentAnalysis) {
    && document.source.unitId == unitId
    && AllProjected(tokens, |tokens|, document.tokens)
    && IsOutlineOf(source, SpansOfTree(tree), document.structure)
    && document.diagnostics == []
    && |document.derivation| == 2
    && IsStepOf(document.derivation[0], parser, source) && IsStepOf(document.derivation[1], annotator, source)
  }

  /** The document for projected tokens and outline nodes. */
  function DocumentFor(unitId: string, source: string, tokens: seq<IrToken>, nodes: seq<OutlineNode>,
                       parser: PassIdentity, annotator: PassIdentity, contract: Contract): DocumentAnalysis
    requires ByteLen(source) <= I32_MAX
  {
    var whole := ByteRange(0, ByteLen(source));
    DocumentAnalysis(contract.version, contract.schemaHash, contract.vocabularyHash,
                     SourceArtifact(unitId, contract.sha256(source), ByteLen(source)),
                     tokens, nodes, [], [StepOf(parser, whole, contract), StepOf(annotator, whole, contract)])
  }

  lemma ProjectedDocumentIsOk(unitId: string, source: string, tokens: seq<Token>, projected: seq<IrToken>,
                              nodes: seq<OutlineNode>, parser: PassIdentity, annotator: PassIdentity, contract: Contract)
    requires ByteLen(source) <= I32_MAX && IdentitiesOk(parser, annotator)
    requires TokensOrdered(source, tokens) && AllProjected(tokens, |tokens|, projected)
    requires OutlineOk(nodes, SourceContext(ByteLen(source), Some(source)))
    ensures DocumentOk(DocumentFor(unitId, source, projected, nodes, parser, annotator, contract), Some(Utf8(source)), contract)
            <==> AllFilled(tokens)
  {
    var ctx := SourceContext(ByteLen(source), Some(source));
    ProjectedTokensAreOk(source, ctx, tokens, projected);
    TwoStepsAreOk(source, ctx, parser, annotator, contract);
  }

  lemma SpansOfTextFit(source: string, spans: seq<Span>)
    requires Classification.AllValid(source, spans) && ByteLen(source) <= I32_MAX
    ensures SpansFit(spans)
  {
    forall s | 0 <= s < |spans|
      ensures SpanFits(spans[s])
    {
      assert Classification.ValidSpan(source, spans[s]);
    }
  }

  lemma TokensOfTextFit(source: string, tokens: seq<Token>)
    requires TokensOrdered(source, tokens) && ByteLen(source) <= I32_MAX
    ensures |tokens| <= I32_MAX + 1 <==> forall i :: 0 <= i < |tokens| ==> TokenFits(tokens, i)
  {
    var spans := Classification.TokenSpans(tokens);
    SpansOfTextFit(source, spans);
    assert forall i :: 0 <= i < |tokens| ==> SpanFits(spans[i]) && spans[i] == tokens[i].span;
    if |tokens| > I32_MAX + 1 {
      assert !TokenFits(tokens, I32_MAX + 1);
    }
  }

  /** The outline of a classified tree, with the check it will pass. */
  method ProjectOutline(source: string, tree: Tree) returns (nodes: Narrowed<seq<OutlineNode>>)
    requires Classification.TreeOk(source, tree) && ByteLen(source) <= I32_MAX
    ensures nodes.Fits? <==> IdsFit(ParagraphCount(BreaksOf(source, SpansOfTree(tree))), |SpansOfTree(tree)|)
    ensures nodes.Fits? ==> OutlineOk(nodes.value, SourceContext(ByteLen(source), Some(source)))
    ensures nodes.Fits? ==> IsOutlineOf(source, SpansOfTree(tree), nodes.value)
    ensures nodes.TooLarge? ==> nodes.overflow.value > I32_MAX
  {
    ghost var ctx := SourceContext(ByteLen(source), Some(source));
    ghost var spans := SpansOfTree(tree);
    ghost var paragraphs;
    ClassifiedSentencesAreOk(source, tree);
    SpansOfTextFit(source, spans);
    nodes, paragraphs := BuildStructure(source, tree);
    if nodes.Fits? {
      if spans == [] {
        EmptyOutlineIsOk(ctx);
      } else {
        BuiltOutlineIsOk(source, ctx, BreaksOf(source, spans), spans, paragraphs, nodes.value);
      }
    }
  }

  /**
    Projects a validated classification. Identities are checked first, then every
    number is narrowed, then the finished document goes through its validator,
    which can only object to an empty leaf.
   */
  method ProjectClassification(unitId: string, source: string, tree: Tree, tokens: seq<Token>,
                               parser: PassIdentity, annotator: PassIdentity, contract: Contract)
    returns (result: Result<DocumentAnalysis>)
    requires Classification.TreeOk(source, tree) && Classification.OneToOne(tree, tokens)
    ensures result.Ok? <==> IdentitiesOk(parser, annotator) && NumbersFit(source, tree, tokens) && AllFilled(tokens)
    ensures result.Ok? ==> DocumentOk(result.value, Some(Utf8(source)), contract)
    ensures result.Ok? ==> ProjectedFrom(unitId, source, tree, tokens, parser, annotator, result.value)
    ensures !parser.IsPresent() ==> result == Err(MissingPassIdentity(ParserRole))
    ensures parser.IsPresent() && !annotator.IsPresent() ==> result == Err(MissingPassIdentity(AnnotatorRole))
    ensures parser.IsPresent() && annotator.IsPresent() && parser.passId == annotator.passId ==>
              result == Err(DuplicatePassId(parser.passId))
    ensures IdentitiesOk(parser, annotator) && !NumbersFit(source, tree, tokens) ==>
              result.Err? && result.error.NumberTooLarge? && result.error.overflow.value > I32_MAX
    ensures IdentitiesOk(parser, annotator) && NumbersFit(source, tree, tokens) && !AllFilled(tokens) ==>
              result.Err? && result.error.InvalidProjectedDocument?
  {
    if !parser.IsPresent() {
      return Err(MissingPassIdentity(ParserRole));
    }
    if !annotator.IsPresent() {
      return Err(MissingPassIdentity(AnnotatorRole));
    }
    if parser.passId == annotator.passId {
      return Err(DuplicatePassId(parser.passId));
    }
    ClassifiedTokensAreOrdered(source, tree, tokens);
    var projected := ProjectTokens(tokens);
    if ByteLen(source) <= I32_MAX {
      TokensOfTextFit(source, tokens);
    }
    if projected.TooLarge? {
      return Err(NumberTooLarge(projected.overflow));
    }
    var length := ToI32(SourceLength, ByteLen(source));
    if length.TooLarge? {
      return Err(NumberTooLarge(length.overflow));
    }
    var nodes := ProjectOutline(source, tree);
    if nodes.TooLarge? {
      return Err(NumberTooLarge(nodes.overflow));
    }
    var document := DocumentFor(unitId, source, projected.value, nodes.value, parser, annotator, contract);
    ProjectedDocumentIsOk(unitId, source, tokens, projected.value, nodes.value, parser, annotator, contract);
    var errors := ValidateDocument(document, Some(Utf8(source)), contract);
    result := if errors == [] then Ok(document) else Err(InvalidProjectedDocument(errors));
  }

  /** The entry point for values nobody has validated yet. */
  method FromClassification(unitId: string, source: string, tree: Tree, tokens: seq<Token>,
                            parser: PassIdentity, annotator: PassIdentity, contract: Contract)
    returns (result: Result<DocumentAnalysis>)
    ensures result.Ok? <==>
              && Classification.TreeOk(source, tree) && Classification.OneToOne(tree, tokens)
              && IdentitiesOk(parser, annotator) && NumbersFit(source, tree, tokens) && AllFilled(tokens)
    ensures result.Ok? ==> DocumentOk(result.value, Some(Utf8(source)), contract)
    ensures result.Ok? ==> ProjectedFrom(unitId, source, tree, tokens, parser, annotator, result.value)
    ensures result.Err? && result.error.InvalidClassification? <==>
              !(Classification.TreeOk(source, tree) && Classification.OneToOne(tree, tokens))
    ensures result.Err? && result.error.InvalidClassification? ==>
              Classification.IsFirstFault(source, tree, tokens, result.error.error)
    ensures Classification.TreeOk(source, tree) && Classification.OneToOne(tree, tokens) ==>
              if !parser.IsPresent() then result == Err(MissingPassIdentity(ParserRole))
              else if !annotator.IsPresent() then result == Err(MissingPassIdentity(AnnotatorRole))
              else if parser.passId == annotator.passId then result == Err(DuplicatePassId(parser.passId))
              else if !NumbersFit(source, tree, tokens) then
                result.Err? && result.error.NumberTooLarge? && result.error.overflow.value > I32_MAX
              else result.Ok? || result.error.InvalidProjectedDocument?
  {
    var error := Classification.ValidateClassification(source, tree, tokens);
    if error.Some? {
      return Err(InvalidClassification(error.value));
    }
    result := ProjectClassification(unitId, source, tree, tokens, parser, annotator, contract);
  }

  // ----- The numbers always fit a text that does -----

  lemma ParagraphGapIsTwoBytes(source: string, from: nat, to: nat)
    requires IsParagraphGap(Gap(source, from, to))
    ensures from + 2 <= to
  {
    var i, j := FloorIndex(source, from), FloorIndex(source, to);
    if i <= j {
      OffsetsIncrease(source, i, j);
    }
  }

  lemma BreakIsTwoBytes(source: string, spans: seq<Span>, s: nat)
    requires 0 < s < |spans| && BreaksOf(source, spans)[s]
    ensures spans[s - 1].end + 2 <= spans[s].start
  {
    ParagraphGapIsTwoBytes(source, spans[s - 1].end, spans[s].start);
  }

  /** Sentences that are not empty, in order, with room for a blank line before each new paragraph. */
  predicate Spaced(spans: seq<Span>, breaks: seq<bool>) {
    && |breaks| == |spans|
    && (forall s :: 0 <= s < |spans| ==> Filled(spans[s]))
    && (forall s :: 0 < s < |spans| ==> spans[s - 1].end + (if breaks[s] then 2 else 0) <= spans[s].start)
  }

  /** Paragraphs and sentences together outnumber the bytes up to a sentence's end by at most one. */
  lemma {:induction false} OutlineFitsItsText(spans: seq<Span>, breaks: seq<bool>, s: nat)
    requires Spaced(spans, breaks) && s < |spans|
    ensures ParagraphOf(breaks, s) + 1 + s <= spans[s].end
    decreases s
  {
    assert Filled(spans[s]);
    if s > 0 {
      OutlineFitsItsText(spans, breaks, s - 1);
    }
  }

  lemma SentencesAreSpaced(source: string, spans: seq<Span>, breaks: seq<bool>)
    requires SentencesOk(source, spans) && breaks == BreaksOf(source, spans)
    requires forall s :: 0 <= s < |spans| ==> Filled(spans[s])
    ensures Spaced(spans, breaks)
  {
    forall s | 0 < s < |spans|
      ensures spans[s - 1].end + (if breaks[s] then 2 else 0) <= spans[s].start
    {
      if breaks[s] {
        BreakIsTwoBytes(source, spans, s);
      }
    }
  }

  lemma SpacedIdsFit(spans: seq<Span>, breaks: seq<bool>)
    requires Spaced(spans, breaks) && SpansFit(spans)
    ensures IdsFit(ParagraphCount(breaks), |spans|)
  {
    if spans != [] {
      OutlineFitsItsText(spans, breaks, |spans| - 1);
      assert SpanFits(spans[|spans| - 1]);
    }
  }

  lemma IdsOfTextFit(source: string, spans: seq<Span>)
    requires SentencesOk(source, spans) && ByteLen(source) <= I32_MAX
    requires forall s :: 0 <= s < |spans| ==> Filled(spans[s])
    ensures IdsFit(ParagraphCount(BreaksOf(source, spans)), |spans|)
  {
    var breaks := BreaksOf(source, spans);
    SpansOfTextFit(source, spans);
    SentencesAreSpaced(source, spans, breaks);
    SpacedIdsFit(spans, breaks);
  }

  lemma TokenCountFits(source: string, tokens: seq<Token>)
    requires TokensOrdered(source, tokens) && ByteLen(source) <= I32_MAX && AllFilled(tokens)
    ensures |tokens| <= I32_MAX
  {
    TokensFitTheirText(source, tokens, |tokens|);
    SpansOfTextFit(source, Classification.TokenSpans(tokens));
    if tokens != [] {
      assert SpanFits(Classification.TokenSpans(tokens)[|tokens| - 1]);
    }
  }

  /** With no empty sentence or leaf, a text that fits the wire has an outline and tokens that fit. */
  lemma NumbersOfTextFit(source: string, tree: Tree, tokens: seq<Token>)
    requires Classification.TreeOk(source, tree) && Classification.OneToOne(tree, tokens)
    requires ByteLen(source) <= I32_MAX && AllFilled(tokens)
    requires forall s :: 0 <= s < |SpansOfTree(tree)| ==> Filled(SpansOfTree(tree)[s])
    ensures NumbersFit(source, tree, tokens)
  {
    ClassifiedSentencesAreOk(source, tree);
    ClassifiedTokensAreOrdered(source, tree, tokens);
    TokenCountFits(source, tokens);
    IdsOfTextFit(source, SpansOfTree(tree));
  }
}
