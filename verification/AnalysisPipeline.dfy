/**
  One analysis of one document: guard the masked view, parse and classify it,
  validate the result against the view and again against the source, and project
  its tokens. For the built-in adapters on a masked document nothing can fail.
 */
module AnalysisPipeline {
  import opened Sequences
  import opened Text
  import opened Characters
  import opened Syntax
  import opened Coordinates
  import opened SourceViews
  import opened MarkdownMask
  import opened CoordinateMask
  import opened SemanticTokens
  import opened Unicode
  import opened Lexer
  import opened ProseParser
  import opened Classification
  import opened LexicalAnnotator
  import opened BuiltinAdapters

  type Style = PosClass -> Option<u32>

  datatype Analysis =
    | InvalidSourceView
    | InvalidClassification(error: Error)
    | Analyzed(semanticTokens: seq<SemanticToken>)

  /** Spans of a valid classification are what the token encoder needs. */
  lemma ValidatedTokensAreOrdered(source: string, tree: Tree, tokens: seq<Token>)
    requires TreeOk(source, tree) && OneToOne(tree, tokens)
    ensures SemanticTokens.Ordered(source, tokens)
  {
    var spans := TokenSpans(tokens);
    assert tree == Tree(Document(tree.root.sentences));
    LeavesAreOrdered(source, tree.root.sentences);
    forall i | 0 <= i < |tokens|
      ensures ValidSpan(source, tokens[i].span)
      ensures i > 0 ==> tokens[i - 1].span.end <= tokens[i].span.start
    {
      assert spans[i] == tokens[i].span;
      assert i > 0 ==> spans[i - 1] == tokens[i - 1].span && spans[i - 1].end <= spans[i].start;
    }
  }

  /**
    The analysis of `analysis` projected onto `source`, for any parser and
    annotator. Shared storage means the two views are one text.
   */
  method AnalyzeDocumentSources(source: string, analysis: string, sharesStorage: bool,
                                parser: string -> Tree, annotator: (string, Tree) -> seq<Token>, style: Style)
    returns (result: Analysis)
    requires ByteLen(source) < U32_LIMIT && (sharesStorage ==> source == analysis)
    ensures var tree := parser(analysis);
            var tokens := annotator(analysis, tree);
            && (result.InvalidSourceView? <==> !sharesStorage && !ShareCoordinates(source, analysis))
            && (result.Analyzed? <==>
                  && (sharesStorage || ShareCoordinates(source, analysis))
                  && OneToOne(tree, tokens) && TreeOk(analysis, tree) && TreeOk(source, tree))
            && (result.InvalidClassification? ==>
                  IsFirstFault(if OneToOne(tree, tokens) && TreeOk(analysis, tree) then source else analysis,
                               tree, tokens, result.error))
            && (result.Analyzed? ==>
                  && SemanticTokens.Ordered(source, tokens)
                  && Decoded(result.semanticTokens) == StyledTokens(source, tokens, style))
  {
    if !sharesStorage {
      var same := SourceViewsShareCoordinates(source, analysis);
      if !same {
        return InvalidSourceView;
      }
    }
    var tree := parser(analysis);
    var tokens := annotator(analysis, tree);
    var error := ValidateClassification(analysis, tree, tokens);
    if error.Some? {
      return InvalidClassification(error.value);
    }
    if !sharesStorage {
      error := ValidateClassification(source, tree, tokens);
      if error.Some? {
        return InvalidClassification(error.value);
      }
    }
    ValidatedTokensAreOrdered(source, tree, tokens);
    var data := SemanticTokensFrom(source, tokens, style);
    return Analyzed(data);
  }

  // ----- The masked view -----

  lemma {:induction false} InLexeme(xs: seq<Lexeme>, i: nat, j: nat)
    requires i < |xs| && xs[i].from <= j < xs[i].to
    ensures CoveredBy(xs, j)
    decreases |xs|
  {
    if i > 0 {
      InLexeme(xs[1..], i - 1, j);
    }
  }

  /** A place beside a character that is not a no-break space is a boundary of the source. */
  lemma OutsidePairs(source: string, pieces: seq<string>, n: nat)
    requires Replaces(source, pieces) && n <= |Flatten(pieces)|
    requires (n < |Flatten(pieces)| && Flatten(pieces)[n] != NBSP) || (n > 0 && Flatten(pieces)[n - 1] != NBSP)
    ensures IsBoundary(source, ByteOffset(Flatten(pieces), n))
  {
    WholeStart(pieces);
    BoundaryOrInsidePair(source, pieces, |source|, n);
  }

  /** The first and the last character of a lexeme are not skipped whitespace. */
  lemma LexemeEdgesAreProse(t: Tables, text: string, i: nat)
    requires t.Valid() && i < |Lex(t, text, 0)|
    ensures var x := Lex(t, text, 0)[i];
            x.from < x.to <= |text| && !IsParserWhitespace(text[x.from]) && !IsParserWhitespace(text[x.to - 1])
  {
    var xs := Lex(t, text, 0);
    LexemesAreOrdered(t, text, 0);
    InLexeme(xs, i, xs[i].from);
    InLexeme(xs, i, xs[i].to - 1);
    LexemesCoverTheText(t, text, 0, xs[i].from);
    LexemesCoverTheText(t, text, 0, xs[i].to - 1);
  }

  lemma ProseEdges(source: string, pieces: seq<string>, x: Lexeme)
    requires Replaces(source, pieces) && x.from < x.to <= |Flatten(pieces)|
    requires Flatten(pieces)[x.from] != NBSP && Flatten(pieces)[x.to - 1] != NBSP
    ensures Edge(source, Flatten(pieces), x)
  {
    OutsidePairs(source, pieces, x.from);
    OutsidePairs(source, pieces, x.to);
  }

  /** No lexeme of a masked text begins or ends inside a masked four-byte character. */
  lemma LexemeEdgesAreSourceBoundaries(t: Tables, source: string, pieces: seq<string>, i: nat)
    requires t.Valid() && Replaces(source, pieces)
    requires i < |Lex(t, Flatten(pieces), 0)|
    ensures Edge(source, Flatten(pieces), Lex(t, Flatten(pieces), 0)[i])
  {
    LexemeEdgesAreProse(t, Flatten(pieces), i);
    assert IsParserWhitespace(NBSP);
    ProseEdges(source, pieces, Lex(t, Flatten(pieces), 0)[i]);
  }

  /** The tree parsed from a masked text is well formed over the original source. */
  lemma MaskedTreeFitsSource(t: Tables, source: string, pieces: seq<string>)
    requires t.Valid() && Replaces(source, pieces)
    ensures TreeOk(source, ParseTree(t, Flatten(pieces)))
  {
    var masked := Flatten(pieces);
    var xs := Lex(t, masked, 0);
    ReplacementSharesCoordinates(source, pieces);
    LexemesAreOrdered(t, masked, 0);
    forall i | 0 <= i < |xs|
      ensures Edge(source, masked, xs[i])
    {
      LexemeEdgesAreSourceBoundaries(t, source, pieces, i);
    }
    SegmentationIsOk(source, masked, xs);
  }

  /** Every check the pipeline makes on a masked document holds for the built-in adapters. */
  lemma MaskedAnalysisValidates(t: Tables, lexicon: Lexicon, source: string, ranges: seq<ExcludedRange>)
    requires t.Valid()
    ensures var masked := Flatten(Pieces(source, ranges));
            var tree := ParseTree(t, masked);
            && ShareCoordinates(source, masked)
            && TreeOk(masked, tree) && TreeOk(source, tree)
            && OneToOne(tree, ContextualAnnotation(t, lexicon, masked, tree))
  {
    MaskedDocumentPassesGuard(source, ranges);
    PiecesReplace(source, ranges);
    MaskedTreeFitsSource(t, source, Pieces(source, ranges));
    BuiltinClassificationValidates(t, lexicon, Flatten(Pieces(source, ranges)));
  }

  /** With nothing to mask the view is the source itself, which it then borrows. */
  lemma NothingMasked(source: string)
    ensures Flatten(Pieces(source, [])) == source
  {
    PiecesOutside(source, [], 0, |source|);
    assert Pieces(source, [])[0..|source|] == Pieces(source, []) && source[0..|source|] == source;
  }

  /** Analysing Markdown with the built-in adapters always produces tokens, whatever is excluded. */
  method AnalyzeMarkdown(t: Tables, lexicon: Lexicon, source: string, excluded: seq<ExcludedRange>, style: Style)
    returns (result: Analysis, ranges: seq<ExcludedRange>)
    requires t.Valid() && ByteLen(source) < U32_LIMIT
    ensures result.Analyzed?
    ensures Usable(source, ranges) && Bytes(ranges) == RetainedBytes(source, excluded)
    ensures var masked := Flatten(Pieces(source, ranges));
            var tokens := ContextualAnnotation(t, lexicon, masked, ParseTree(t, masked));
            SemanticTokens.Ordered(source, tokens)
            && Decoded(result.semanticTokens) == StyledTokens(source, tokens, style)
  {
    var masked;
    masked, ranges := MaskNonProse(source, excluded);
    MaskedAnalysisValidates(t, lexicon, source, ranges);
    if ranges == [] {
      NothingMasked(source);
    }
    result := AnalyzeDocumentSources(source, masked, ranges == [], text => ParseTree(t, text),
                                     (text, tree) => ContextualAnnotation(t, lexicon, text, tree), style);
  }
}
