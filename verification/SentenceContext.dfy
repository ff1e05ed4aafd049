/** On the parser's own trees the contextual annotator never looks across a sentence boundary. */
module SentenceContext {
  import opened Text
  import opened Syntax
  import opened Unicode
  import opened Lexer
  import opened ProseParser
  import opened Classification
  import opened ContextualAnnotator
  import opened LexicalAnnotator
  import opened BuiltinAdapters

  /** What the lexer guarantees of a lexeme's leaf. */
  predicate PunctAtEnd(text: string, x: Lexeme) {
    IsCloser(text, x) || x.kind == SentenceEnd ==> Leaf(text, x).Punct?
  }

  lemma {:induction false} LexemesEndInPunct(t: Tables, text: string, at: nat)
    requires t.Valid() && at <= |text|
    ensures forall x <- Lex(t, text, at) :: PunctAtEnd(text, x)
    decreases |text| - at
  {
    var from := SkipTo(text, at);
    if from < |text| {
      var x := LexemeAt(t, text, from);
      if IsCloser(text, x) {
        CloserIsPunct(t, text, from);
      }
      LexemesEndInPunct(t, text, x.to);
    }
  }

  lemma {:induction false} SegmentEndsInPunct(text: string, xs: seq<Lexeme>, i: nat)
    requires forall x <- xs :: PunctAtEnd(text, x)
    requires i + 1 < |Segments(text, xs)|
    ensures var group := Segments(text, xs)[i];
            group != [] && Leaf(text, group[|group| - 1]).Punct?
    decreases |xs|
  {
    var n := SentenceLength(text, xs);
    FirstSegment(text, xs);
    if i > 0 {
      SegmentEndsInPunct(text, xs[n..], i - 1);
    } else {
      FirstSegmentShape(text, xs, n);
      var end, last := FirstTerminator(xs[..n], 0), xs[..n][n - 1];
      assert last in xs;
      assert end < n - 1 ==> Trails(text, xs[..n], n - 1);
    }
  }

  // ----- Leaves tagged with their sentence -----

  function TaggedGroup(text: string, group: seq<Lexeme>, sentence: nat): seq<Slot> {
    seq(|group|, k requires 0 <= k < |group| => Slot(Leaf(text, group[k]), sentence))
  }

  function Tagged(text: string, groups: seq<seq<Lexeme>>): seq<Slot> {
    if groups == [] then []
    else Tagged(text, groups[..|groups| - 1]) + TaggedGroup(text, groups[|groups| - 1], |groups| - 1)
  }

  lemma {:induction false} TagLeaves(text: string, group: seq<Lexeme>, sentence: nat)
    ensures SlotsOfParts(Leaves(text, group), sentence) == TaggedGroup(text, group, sentence)
    decreases |group|
  {
    if group != [] {
      TagLeaves(text, group[..|group| - 1], sentence);
    }
  }

  lemma {:induction false} TagSentences(text: string, groups: seq<seq<Lexeme>>)
    ensures SlotsOf(Sentences(text, groups)) == Tagged(text, groups)
    decreases |groups|
  {
    if groups != [] {
      TagSentences(text, groups[..|groups| - 1]);
      TagLeaves(text, groups[|groups| - 1], |groups| - 1);
    }
  }

  /** The leaf before a change of sentence is the last of its sentence, so it is punctuation. */
  lemma {:induction false} BoundaryIsPunct(text: string, groups: seq<seq<Lexeme>>, i: nat)
    requires forall g :: 0 <= g < |groups| ==> groups[g] != []
    requires forall g :: 0 <= g < |groups| - 1 ==> Leaf(text, groups[g][|groups[g]| - 1]).Punct?
    requires 0 < i < |Tagged(text, groups)|
    requires Tagged(text, groups)[i - 1].sentence != Tagged(text, groups)[i].sentence
    ensures Tagged(text, groups)[i - 1].leaf.Punct?
    decreases |groups|
  {
    var n := |groups| - 1;
    var before := Tagged(text, groups[..n]);
    if i < |before| {
      BoundaryIsPunct(text, groups[..n], i);
    } else if i == |before| {
      assert groups[..n][n - 1] == groups[n - 1];
      var last := TaggedGroup(text, groups[n - 1], n - 1);
      assert before[i - 1] == last[|last| - 1];
    }
  }

  predicate IsMark(token: Token) {
    token.pos == Punctuation || token.pos == Quote
  }

  lemma MarkClass(t: Tables, lexicon: Lexicon, source: string, before: seq<Slot>, slot: Slot)
    requires slot.leaf.Punct?
    ensures IsMark(Token(NodeSpan(slot.leaf), ClassOf(t, lexicon, source, before, slot)))
  {
  }

  lemma PunctLeafIsMark(t: Tables, lexicon: Lexicon, source: string, ss: seq<Slot>, k: nat)
    requires k < |ss| && ss[k].leaf.Punct?
    ensures |LexicalTokens(t, lexicon, source, ss)| == |ss|
    ensures IsMark(LexicalTokens(t, lexicon, source, ss)[k])
  {
    MarkClass(t, lexicon, source, ss[..k], ss[k]);
  }

  /** A mark is never refined and never offered as context. */
  lemma MarksAreInert(source: string, tokens: seq<Token>, i: nat)
    requires i < |tokens| && IsMark(tokens[i])
    ensures |RefinedAll(source, tokens)| == |tokens| && RefinedAll(source, tokens)[i] == tokens[i]
    ensures ContextAt(source, tokens, i) == None && ContextAt(source, RefinedAll(source, tokens), i) == None
  {
    RewriteOnlyResolvesContent(source, tokens, i);
  }

  /** The last leaf of every sentence but the last is punctuation. */
  lemma BoundaryLeafIsPunct(t: Tables, text: string, i: nat)
    requires t.Valid()
    requires var ss := SlotsOf(ParseTree(t, text).root.sentences);
             0 < i < |ss| && ss[i - 1].sentence != ss[i].sentence
    ensures SlotsOf(ParseTree(t, text).root.sentences)[i - 1].leaf.Punct?
  {
    var xs := Lex(t, text, 0);
    var groups := Segments(text, xs);
    LexemesEndInPunct(t, text, 0);
    SegmentsPartition(text, xs);
    forall g | 0 <= g < |groups| - 1
      ensures Leaf(text, groups[g][|groups[g]| - 1]).Punct?
    {
      SegmentEndsInPunct(text, xs, g);
    }
    TagSentences(text, groups);
    BoundaryIsPunct(text, groups, i);
  }

  /**
    Where the sentence changes between leaves `i - 1` and `i`, neither token is
    refined by looking at the other: the left one is punctuation, which is never
    refined and never offered as context, before or after the rewrite.
   */
  lemma ContextStaysInSentence(t: Tables, lexicon: Lexicon, text: string, i: nat)
    requires t.Valid()
    requires var ss := SlotsOf(ParseTree(t, text).root.sentences);
             0 < i < |ss| && ss[i - 1].sentence != ss[i].sentence
    ensures var tree := ParseTree(t, text);
            var lexical, refined := LexicalAnnotation(t, lexicon, text, tree), ContextualAnnotation(t, lexicon, text, tree);
            && i < |lexical| == |refined|
            && IsMark(lexical[i - 1]) && refined[i - 1] == lexical[i - 1]
            && ContextAt(text, lexical, i - 1) == None && ContextAt(text, refined, i - 1) == None
  {
    var tree := ParseTree(t, text);
    BoundaryLeafIsPunct(t, text, i);
    PunctLeafIsMark(t, lexicon, text, SlotsOf(tree.root.sentences), i - 1);
    MarksAreInert(text, LexicalAnnotation(t, lexicon, text, tree), i - 1);
  }
}
