/** The built-in parser and annotators always produce a classification that validates. */
module BuiltinAdapters {
  import opened Text
  import opened Syntax
  import opened Unicode
  import opened Lexer
  import opened ProseParser
  import opened Classification
  import opened ContextualAnnotator
  import opened LexicalAnnotator

  // ----- Either annotator, on any well-formed tree -----

  function LeafNodes(ss: seq<Slot>): (nodes: seq<Node>)
    ensures |nodes| == |ss|
    ensures forall i :: 0 <= i < |ss| ==> nodes[i] == ss[i].leaf
  {
    seq(|ss|, i requires 0 <= i < |ss| => ss[i].leaf)
  }

  lemma {:induction false} PartLeaves(parts: seq<Node>, sentence: nat)
    requires forall j :: 0 <= j < |parts| ==> IsLeaf(parts[j])
    ensures LeafNodes(SlotsOfParts(parts, sentence)) == parts
    decreases |parts|
  {
    if parts != [] {
      PartLeaves(parts[..|parts| - 1], sentence);
    }
  }

  predicate IsSentenceOfLeaves(node: Node) {
    node.Sentence? && forall j :: 0 <= j < |node.parts| ==> IsLeaf(node.parts[j])
  }

  lemma LeafNodesConcat(a: seq<Slot>, b: seq<Slot>)
    ensures LeafNodes(a + b) == LeafNodes(a) + LeafNodes(b)
  {
  }

  lemma {:induction false} SlotLeaves(sentences: seq<Node>)
    requires forall i :: 0 <= i < |sentences| ==> IsSentenceOfLeaves(sentences[i])
    ensures LeafNodes(SlotsOf(sentences)) == LeavesOf(sentences)
    decreases |sentences|
  {
    if sentences != [] {
      var n := |sentences| - 1;
      SlotLeaves(sentences[..n]);
      assert IsSentenceOfLeaves(sentences[n]);
      PartLeaves(sentences[n].parts, n);
      LeafNodesConcat(SlotsOf(sentences[..n]), SlotsOfParts(sentences[n].parts, n));
    }
  }

  lemma LexicalSpans(t: Tables, lexicon: Lexicon, source: string, ss: seq<Slot>)
    ensures TokenSpans(LexicalTokens(t, lexicon, source, ss)) == Spans(LeafNodes(ss))
  {
  }

  /** The tokens the lexical annotator emits for a tree. */
  function LexicalAnnotation(t: Tables, lexicon: Lexicon, source: string, tree: Tree): seq<Token> {
    LexicalTokens(t, lexicon, source, if tree.root.Document? then SlotsOf(tree.root.sentences) else [])
  }

  /** The tokens the contextual annotator emits: the lexical ones, refined in place. */
  function ContextualAnnotation(t: Tables, lexicon: Lexicon, source: string, tree: Tree): seq<Token> {
    RefinedAll(source, LexicalAnnotation(t, lexicon, source, tree))
  }

  method AnnotateInContext(t: Tables, lexicon: Lexicon, source: string, tree: Tree) returns (tokens: array<Token>)
    ensures fresh(tokens) && tokens[..] == ContextualAnnotation(t, lexicon, source, tree)
  {
    var lexical := Annotate(t, lexicon, source, tree);
    tokens := new Token[|lexical|](i requires 0 <= i < |lexical| => lexical[i]);
    assert tokens[..] == lexical;
    RefineInPlace(source, tokens);
  }

  /** Either annotator emits one token per leaf, on any well-formed tree and with any lexicon. */
  lemma AnnotatorsAreOneToOne(t: Tables, lexicon: Lexicon, text: string, source: string, tree: Tree)
    requires TreeOk(source, tree)
    ensures OneToOne(tree, LexicalAnnotation(t, lexicon, text, tree))
    ensures OneToOne(tree, ContextualAnnotation(t, lexicon, text, tree))
  {
    forall i | 0 <= i < |tree.root.sentences|
      ensures IsSentenceOfLeaves(tree.root.sentences[i])
    {
      assert SentenceOk(source, tree.root.sentences[i]);
    }
    SlotLeaves(tree.root.sentences);
    LexicalSpans(t, lexicon, text, SlotsOf(tree.root.sentences));
    var tokens := LexicalAnnotation(t, lexicon, text, tree);
    forall i | 0 <= i < |tokens|
      ensures RefinedAll(text, tokens)[i].span == tokens[i].span
    {
      RewriteOnlyResolvesContent(text, tokens, i);
    }
    assert TokenSpans(RefinedAll(text, tokens)) == TokenSpans(tokens);
  }

  // ----- The parser's trees -----

  lemma {:induction false} LeavesAt(text: string, xs: seq<Lexeme>, i: nat)
    requires i < |xs|
    ensures Leaves(text, xs)[i] == Leaf(text, xs[i])
    decreases |xs|
  {
    if i < |xs| - 1 {
      LeavesAt(text, xs[..|xs| - 1], i);
    }
  }

  lemma {:induction false} SentencesAt(text: string, groups: seq<seq<Lexeme>>, i: nat)
    requires i < |groups|
    ensures Sentences(text, groups)[i] == SentenceOf(text, groups[i])
    decreases |groups|
  {
    if i < |groups| - 1 {
      SentencesAt(text, groups[..|groups| - 1], i);
    }
  }

  /** Every edge of a lexeme of `text` is a character boundary of `source`, a text of the same byte length. */
  predicate Edge(source: string, text: string, x: Lexeme) {
    && x.from < x.to <= |text|
    && IsBoundary(source, ByteOffset(text, x.from))
    && IsBoundary(source, ByteOffset(text, x.to))
  }

  predicate Carries(source: string, text: string, xs: seq<Lexeme>) {
    && ByteLen(source) == ByteLen(text)
    && (forall i :: 0 <= i < |xs| ==> Edge(source, text, xs[i]))
    && (forall i :: 0 < i < |xs| ==> xs[i - 1].to <= xs[i].from)
  }

  lemma {:induction false} LexemesApart(source: string, text: string, xs: seq<Lexeme>, i: nat, j: nat)
    requires Carries(source, text, xs) && i < j < |xs|
    ensures xs[i].to <= xs[j].from <= |text|
    decreases j
  {
    assert Edge(source, text, xs[j]);
    if i < j - 1 {
      LexemesApart(source, text, xs, i, j - 1);
      assert Edge(source, text, xs[j - 1]);
    }
  }

  lemma SpanOk(source: string, text: string, x: Lexeme)
    requires ByteLen(source) == ByteLen(text) && Edge(source, text, x)
    ensures ValidSpan(source, SpanOf(text, x.from, x.to))
    ensures SpanOf(text, x.from, x.to).start < SpanOf(text, x.from, x.to).end
  {
    OffsetsIncrease(text, x.from, x.to);
    OffsetsIncrease(text, x.to, |text|);
  }

  lemma GroupPart(source: string, text: string, group: seq<Lexeme>, i: nat)
    requires Carries(source, text, group) && i < |group|
    ensures var node, leaf := SentenceOf(text, group), Leaves(text, group)[i];
            && IsLeaf(leaf) && ValidSpan(source, leaf.span) && leaf.span.start < leaf.span.end
            && node.span.start <= leaf.span.start && leaf.span.end <= node.span.end
            && (i > 0 ==> NodeSpan(Leaves(text, group)[i - 1]).end <= leaf.span.start)
  {
    var n := |group| - 1;
    LeavesAt(text, group, i);
    assert Edge(source, text, group[i]) && Edge(source, text, group[0]) && Edge(source, text, group[n]);
    SpanOk(source, text, group[i]);
    if i > 0 {
      LeavesAt(text, group, i - 1);
      LexemesApart(source, text, group, 0, i);
      OffsetsIncrease(text, group[0].from, group[i].from);
      OffsetsIncrease(text, group[i - 1].to, group[i].from);
    }
    if i < n {
      LexemesApart(source, text, group, i, n);
      OffsetsIncrease(text, group[i].to, group[n].to);
    }
  }

  lemma GroupOk(source: string, text: string, group: seq<Lexeme>)
    requires group != [] && Carries(source, text, group)
    ensures SentenceOk(source, SentenceOf(text, group))
  {
    var n := |group| - 1;
    GroupPart(source, text, group, 0);
    GroupPart(source, text, group, n);
    assert Edge(source, text, group[0]) && Edge(source, text, group[n]);
    LeavesAt(text, group, 0);
    LeavesAt(text, group, n);
    forall i | 0 <= i < |group|
      ensures var leaf := Leaves(text, group)[i];
              && IsLeaf(leaf) && ValidSpan(source, leaf.span)
              && SentenceOf(text, group).span.start <= leaf.span.start
              && leaf.span.end <= SentenceOf(text, group).span.end
    {
      GroupPart(source, text, group, i);
    }
    forall i | 0 < i < |group|
      ensures Spans(Leaves(text, group))[i - 1].end <= Spans(Leaves(text, group))[i].start
    {
      GroupPart(source, text, group, i);
    }
  }

  lemma CarriesSlice(source: string, text: string, xs: seq<Lexeme>, n: nat)
    requires Carries(source, text, xs) && n <= |xs|
    ensures Carries(source, text, xs[..n]) && Carries(source, text, xs[n..])
  {
  }

  /** One sentence ends before the lexeme after it begins. */
  lemma GroupBefore(source: string, text: string, xs: seq<Lexeme>, n: nat, next: seq<Lexeme>)
    requires Carries(source, text, xs) && 0 < n < |xs| && next != [] && next[0] == xs[n]
    ensures SentenceOf(text, xs[..n]).span.end <= SentenceOf(text, next).span.start
  {
    assert Edge(source, text, xs[n]) && Edge(source, text, xs[n - 1]);
    OffsetsIncrease(text, xs[n - 1].to, xs[n].from);
  }

  lemma FirstSegment(text: string, xs: seq<Lexeme>)
    requires xs != []
    ensures var n := SentenceLength(text, xs);
            && Segments(text, xs)[0] == xs[..n]
            && Segments(text, xs)[1..] == Segments(text, xs[n..])
            && xs[..n] != [] && xs[..n][0] == xs[0]
  {
  }

  /** Sentences of a segmentation: each is fine, and each ends before the next begins. */
  lemma {:induction false} SegmentOk(source: string, text: string, xs: seq<Lexeme>, i: nat)
    requires Carries(source, text, xs) && i < |Segments(text, xs)|
    ensures SentenceOk(source, SentenceOf(text, Segments(text, xs)[i]))
    ensures i > 0 ==>
              SentenceOf(text, Segments(text, xs)[i - 1]).span.end <= SentenceOf(text, Segments(text, xs)[i]).span.start
    decreases |xs|
  {
    var n := SentenceLength(text, xs);
    CarriesSlice(source, text, xs, n);
    FirstSegment(text, xs);
    if i == 0 {
      GroupOk(source, text, xs[..n]);
    } else {
      SegmentOk(source, text, xs[n..], i - 1);
      if i == 1 {
        FirstSegment(text, xs[n..]);
        GroupBefore(source, text, xs, n, Segments(text, xs)[1]);
      }
    }
  }

  lemma SegmentationIsOk(source: string, text: string, xs: seq<Lexeme>)
    requires Carries(source, text, xs)
    ensures TreeOk(source, Tree(Document(Sentences(text, Segments(text, xs)))))
  {
    var groups := Segments(text, xs);
    var sentences := Sentences(text, groups);
    forall i | 0 <= i < |sentences|
      ensures SentenceOk(source, sentences[i])
      ensures i > 0 ==> Spans(sentences)[i - 1].end <= Spans(sentences)[i].start
    {
      SegmentOk(source, text, xs, i);
      SentencesAt(text, groups, i);
      if i > 0 {
        SentencesAt(text, groups, i - 1);
      }
    }
  }

  /** The parser's tree is well formed over its own text. */
  lemma ParseTreeIsOk(t: Tables, text: string)
    ensures TreeOk(text, ParseTree(t, text))
  {
    var xs := Lex(t, text, 0);
    LexemesAreOrdered(t, text, 0);
    forall i | 0 <= i < |xs|
      ensures Edge(text, text, xs[i])
    {
      IndexOfOffset(text, xs[i].from);
      IndexOfOffset(text, xs[i].to);
    }
    SegmentationIsOk(text, text, xs);
  }

  /** The built-in parser with either annotator always passes validation. */
  lemma BuiltinClassificationValidates(t: Tables, lexicon: Lexicon, text: string)
    ensures var tree := ParseTree(t, text);
            && TreeOk(text, tree)
            && OneToOne(tree, LexicalAnnotation(t, lexicon, text, tree))
            && OneToOne(tree, ContextualAnnotation(t, lexicon, text, tree))
  {
    ParseTreeIsOk(t, text);
    AnnotatorsAreOneToOne(t, lexicon, text, text, ParseTree(t, text));
  }
}
