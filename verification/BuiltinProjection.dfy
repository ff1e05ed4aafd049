/** Prose parsed and annotated by the built-in adapters always projects, up to the wire's size limit. */
module BuiltinProjection {
  import opened Text
  import opened Syntax
  import opened Unicode
  import opened Lexer
  import opened ProseParser
  import opened LexicalAnnotator
  import opened BuiltinAdapters
  import Classification
  import opened IrDocument
  import opened IrValidation
  import opened OutlineBuilder
  import opened Projection

  predicate FilledSentence(node: Node) {
    node.Sentence? && Filled(node.span)
    && forall j :: 0 <= j < |node.parts| ==> Filled(Classification.NodeSpan(node.parts[j]))
  }

  lemma GroupIsFilled(text: string, group: seq<Lexeme>)
    requires group != [] && Carries(text, text, group)
    ensures FilledSentence(SentenceOf(text, group))
  {
    var node := SentenceOf(text, group);
    GroupPart(text, text, group, 0);
    forall j | 0 <= j < |node.parts|
      ensures Filled(Classification.NodeSpan(node.parts[j]))
    {
      GroupPart(text, text, group, j);
    }
  }

  lemma {:induction false} SegmentIsFilled(text: string, xs: seq<Lexeme>, i: nat)
    requires Carries(text, text, xs) && i < |Segments(text, xs)|
    ensures FilledSentence(SentenceOf(text, Segments(text, xs)[i]))
    decreases |xs|
  {
    var n := SentenceLength(text, xs);
    CarriesSlice(text, text, xs, n);
    BuiltinAdapters.FirstSegment(text, xs);
    if i == 0 {
      GroupIsFilled(text, xs[..n]);
    } else {
      SegmentIsFilled(text, xs[n..], i - 1);
    }
  }

  /** Every sentence and every leaf of a parse covers at least one byte. */
  lemma ParsedSentencesAreFilled(t: Tables, text: string)
    ensures var sentences := ParseTree(t, text).root.sentences;
            forall i :: 0 <= i < |sentences| ==> FilledSentence(sentences[i])
  {
    var xs := Lex(t, text, 0);
    var groups := Segments(text, xs);
    LexemesAreOrdered(t, text, 0);
    forall i | 0 <= i < |xs|
      ensures Edge(text, text, xs[i])
    {
      IndexOfOffset(text, xs[i].from);
      IndexOfOffset(text, xs[i].to);
    }
    forall i | 0 <= i < |Sentences(text, groups)|
      ensures FilledSentence(Sentences(text, groups)[i])
    {
      SentencesAt(text, groups, i);
      SegmentIsFilled(text, xs, i);
    }
  }

  lemma {:induction false} FilledLeaves(sentences: seq<Node>)
    requires forall i :: 0 <= i < |sentences| ==> FilledSentence(sentences[i])
    ensures forall k :: 0 <= k < |Classification.LeavesOf(sentences)| ==>
              Filled(Classification.NodeSpan(Classification.LeavesOf(sentences)[k]))
    decreases |sentences|
  {
    if sentences != [] {
      FilledLeaves(sentences[..|sentences| - 1]);
      assert FilledSentence(sentences[|sentences| - 1]);
    }
  }

  lemma {:induction false} FilledSpans(sentences: seq<Node>)
    requires forall i :: 0 <= i < |sentences| ==> FilledSentence(sentences[i])
    ensures forall s :: 0 <= s < |SentenceSpans(sentences)| ==> Filled(SentenceSpans(sentences)[s])
    decreases |sentences|
  {
    if sentences != [] {
      FilledSpans(sentences[..|sentences| - 1]);
      assert FilledSentence(sentences[|sentences| - 1]);
    }
  }

  lemma OneToOneTokensAreFilled(tree: Tree, tokens: seq<Token>)
    requires Classification.OneToOne(tree, tokens)
    requires forall i :: 0 <= i < |tree.root.sentences| ==> FilledSentence(tree.root.sentences[i])
    ensures AllFilled(tokens)
  {
    FilledLeaves(tree.root.sentences);
    var leaves := Classification.LeavesOf(tree.root.sentences);
    forall i | 0 <= i < |tokens|
      ensures Filled(tokens[i].span)
    {
      assert Classification.TokenSpans(tokens)[i] == Classification.Spans(leaves)[i] == Classification.NodeSpan(leaves[i]);
    }
  }

  /** Parsing, annotating in context and projecting succeeds on every text the wire can measure. */
  method ProjectProse(t: Tables, lexicon: Lexicon, unitId: string, text: string,
                      parser: PassIdentity, annotator: PassIdentity, contract: Contract)
    returns (result: Result<DocumentAnalysis>)
    requires t.Valid()
    ensures result.Ok? <==> IdentitiesOk(parser, annotator) && ByteLen(text) <= I32_MAX
    ensures result.Ok? ==> DocumentOk(result.value, Some(Utf8(text)), contract)
    ensures var tree := ParseTree(t, text);
            result.Ok? ==> ProjectedFrom(unitId, text, tree, ContextualAnnotation(t, lexicon, text, tree), parser, annotator,
                                         result.value)
  {
    var tree := Parse(t, text);
    var tokens := AnnotateInContext(t, lexicon, text, tree);
    BuiltinClassificationValidates(t, lexicon, text);
    ParsedSentencesAreFilled(t, text);
    OneToOneTokensAreFilled(tree, tokens[..]);
    FilledSpans(tree.root.sentences);
    if ByteLen(text) <= I32_MAX {
      NumbersOfTextFit(text, tree, tokens[..]);
    }
    result := ProjectClassification(unitId, text, tree, tokens[..], parser, annotator, contract);
  }
}
