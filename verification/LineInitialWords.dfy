/**
  When the lexical annotator treats a word as starting a line. A word is meant
  to start one when a line break lies anywhere behind the word before it; the
  annotator looks no further back than the leaf before it.
 */
module LineInitialWords {
  import opened Text
  import opened Coordinates
  import opened Syntax
  import opened Unicode
  import opened Lexer
  import opened ProseParser
  import opened Classification
  import opened LexicalAnnotator
  import opened BuiltinAdapters

  /** The last word among the leaves. */
  function LastWord(before: seq<Slot>): (r: nat)
    requires AnyWord(before)
    ensures r < |before| && before[r].leaf.Word?
    ensures forall m :: r < m < |before| ==> !before[m].leaf.Word?
  {
    if before[|before| - 1].leaf.Word? then |before| - 1 else LastWord(before[..|before| - 1])
  }

  predicate BreakBetween(source: string, from: nat, to: nat) {
    HasNewline(SpanText(source, Span(from, to)))
  }

  /** The word is the first one, or a line break lies between the word before it and it. */
  predicate StartsLine(source: string, before: seq<Slot>, slot: Slot) {
    !AnyWord(before)
    || BreakBetween(source, NodeSpan(before[LastWord(before)].leaf).end, NodeSpan(slot.leaf).start)
  }

  /** All line breaks behind the word before it lie ahead of the leaf directly before this one. */
  predicate Missed(source: string, before: seq<Slot>, slot: Slot) {
    && AnyWord(before)
    && BreakBetween(source, NodeSpan(before[LastWord(before)].leaf).end, PreviousEnd(before))
    && !BreakBetween(source, PreviousEnd(before), NodeSpan(slot.leaf).start)
  }

  lemma BreakSplits(source: string, a: nat, b: nat, c: nat)
    requires ValidSpan(source, Span(a, b)) && ValidSpan(source, Span(b, c))
    ensures BreakBetween(source, a, c) <==> BreakBetween(source, a, b) || BreakBetween(source, b, c)
  {
    var i, j, k := FloorIndex(source, a), FloorIndex(source, b), FloorIndex(source, c);
    ByteOffsetInjective(source, i, j);
    ByteOffsetInjective(source, j, k);
    var left, right := source[i..j], source[j..k];
    assert source[i..k] == left + right;
    assert forall m :: 0 <= m < |left| ==> (left + right)[m] == left[m];
    assert forall m :: 0 <= m < |right| ==> (left + right)[|left| + m] == right[m];
  }

  lemma {:induction false} SpansApart(source: string, spans: seq<Span>, i: nat, j: nat)
    requires InOrder(spans) && AllValid(source, spans) && i < j < |spans|
    ensures spans[i].end <= spans[j].start
    decreases j
  {
    if i < j - 1 {
      SpansApart(source, spans, i, j - 1);
    }
  }

  /** Leaf `w` ends before the leaf before leaf `i` does, and that one before leaf `i` starts. */
  predicate Apart(source: string, ss: seq<Slot>, w: nat, i: nat)
    requires w < i < |ss|
  {
    && ValidSpan(source, Span(NodeSpan(ss[w].leaf).end, NodeSpan(ss[i - 1].leaf).end))
    && ValidSpan(source, Span(NodeSpan(ss[i - 1].leaf).end, NodeSpan(ss[i].leaf).start))
  }

  lemma LeafPlaces(source: string, ss: seq<Slot>, w: nat, i: nat)
    requires InOrder(Spans(LeafNodes(ss))) && AllValid(source, Spans(LeafNodes(ss)))
    requires w < i < |ss|
    ensures Apart(source, ss, w, i)
  {
    var spans := Spans(LeafNodes(ss));
    assert spans[w] == NodeSpan(ss[w].leaf) && spans[i - 1] == NodeSpan(ss[i - 1].leaf) && spans[i] == NodeSpan(ss[i].leaf);
    assert ValidSpan(source, spans[w]) && ValidSpan(source, spans[i - 1]) && ValidSpan(source, spans[i]);
    if w < i - 1 {
      SpansApart(source, spans, w, i - 1);
    }
  }

  /** The leaves an annotator visits in a well-formed tree are well placed and in order. */
  lemma VisitedInOrder(source: string, sentences: seq<Node>, ss: seq<Slot>)
    requires TreeOk(source, Tree(Document(sentences))) && ss == SlotsOf(sentences)
    ensures forall w, i :: 0 <= w < i < |ss| ==> Apart(source, ss, w, i)
  {
    forall i | 0 <= i < |sentences|
      ensures IsSentenceOfLeaves(sentences[i])
    {
      assert SentenceOk(source, sentences[i]);
    }
    SlotLeaves(sentences);
    LeavesAreOrdered(source, sentences);
    forall w, i | 0 <= w < i < |ss|
      ensures Apart(source, ss, w, i)
    {
      LeafPlaces(source, ss, w, i);
    }
  }

  /** The word before, the leaf before and this leaf are well placed and in that order. */
  predicate Behind(source: string, before: seq<Slot>, slot: Slot) {
    AnyWord(before) ==>
      && ValidSpan(source, Span(NodeSpan(before[LastWord(before)].leaf).end, PreviousEnd(before)))
      && ValidSpan(source, Span(PreviousEnd(before), NodeSpan(slot.leaf).start))
  }

  lemma ApartIsBehind(source: string, ss: seq<Slot>, before: seq<Slot>, slot: Slot)
    requires forall w, i :: 0 <= w < i < |ss| ==> Apart(source, ss, w, i)
    requires before + [slot] <= ss
    ensures Behind(source, before, slot)
  {
    var i := |before|;
    assert ss[i] == (before + [slot])[i] == slot;
    if AnyWord(before) {
      var w := LastWord(before);
      assert before[w] == (before + [slot])[w] == ss[w] && before[i - 1] == (before + [slot])[i - 1] == ss[i - 1];
      assert Apart(source, ss, w, i);
    }
  }

  lemma LineStartOfLeaf(source: string, before: seq<Slot>, slot: Slot)
    requires Behind(source, before, slot)
    ensures CrossedLine(source, before, slot) ==> StartsLine(source, before, slot)
    ensures (CrossedLine(source, before, slot) <==> StartsLine(source, before, slot)) <==> !Missed(source, before, slot)
  {
    if AnyWord(before) {
      BreakSplits(source, NodeSpan(before[LastWord(before)].leaf).end, PreviousEnd(before), NodeSpan(slot.leaf).start);
    }
  }

  /**
    In a well-formed tree the annotator sees a line start at a word exactly when
    there is one and the break is not hidden behind the leaf before the word.
   */
  lemma LineStartIsSeenUnlessMissed(source: string, sentences: seq<Node>, before: seq<Slot>, slot: Slot)
    requires TreeOk(source, Tree(Document(sentences))) && slot.leaf.Word? && before + [slot] <= SlotsOf(sentences)
    ensures CrossedLine(source, before, slot) ==> StartsLine(source, before, slot)
    ensures (CrossedLine(source, before, slot) <==> StartsLine(source, before, slot)) <==> !Missed(source, before, slot)
  {
    var ss := SlotsOf(sentences);
    VisitedInOrder(source, sentences, ss);
    ApartIsBehind(source, ss, before, slot);
    LineStartOfLeaf(source, before, slot);
  }

  /** A word that starts a line keeps its dictionary class, unless its line start was missed. */
  lemma LineInitialWordKeepsItsClass(t: Tables, lexicon: Lexicon, source: string, sentences: seq<Node>,
                                     before: seq<Slot>, slot: Slot)
    requires TreeOk(source, Tree(Document(sentences))) && slot.leaf.Word? && before + [slot] <= SlotsOf(sentences)
    requires StartsLine(source, before, slot) && !Missed(source, before, slot)
    ensures |before| < |LexicalAnnotation(t, lexicon, source, Tree(Document(sentences)))|
    ensures LexicalAnnotation(t, lexicon, source, Tree(Document(sentences)))[|before|]
            == Token(NodeSpan(slot.leaf), lexicon(SpanText(source, NodeSpan(slot.leaf))))
  {
    LineStartIsSeenUnlessMissed(source, sentences, before, slot);
    assert SlotsOf(sentences)[..|before|] == before && SlotsOf(sentences)[|before|] == slot;
  }

  // ----- An opening quote hides the break -----

  /** A word, a line break, a quotation mark and a capital. */
  predicate IsQuotedLine(text: string) {
    text == "a\n\"B"
  }

  lemma QuotedText(text: string, i: nat, j: nat)
    requires IsQuotedLine(text) && i <= j <= 4
    ensures ByteOffset(text, i) == i && ByteLen(text) == 4
    ensures ValidSpan(text, Span(i, j)) && SpanText(text, Span(i, j)) == text[i..j]
  {
    assert ByteOffset(text, 1) == 1 && ByteOffset(text, 2) == 2 && ByteOffset(text, 3) == 3 && ByteOffset(text, 4) == 4;
    IndexOfOffset(text, i);
    IndexOfOffset(text, j);
  }

  lemma QuotedTexts(text: string)
    requires IsQuotedLine(text)
    ensures SpanText(text, Span(0, 1)) == "a" && SpanText(text, Span(2, 3)) == "\"" && SpanText(text, Span(3, 4)) == "B"
    ensures BreakBetween(text, 1, 3) && !BreakBetween(text, 3, 3)
    ensures LineAround(text, 0) == "a"
  {
    QuotedText(text, 0, 1);
    QuotedText(text, 2, 3);
    QuotedText(text, 3, 4);
    QuotedText(text, 1, 3);
    QuotedText(text, 3, 3);
    assert text[0..1] == "a" && text[2..3] == "\"" && text[3..4] == "B";
    assert IsNewline(text[1..3][0]);
    IndexOfOffset(text, 0);
    assert OnToNewline(text, 1) == 1;
  }

  /** A line of one word is no title. */
  lemma OneWordIsNoTitle(t: Tables, lexicon: Lexicon, line: string)
    requires line == "a" && t.alphabetic('a')
    ensures !IsTitleCase(t, lexicon, line)
  {
    assert line[1..] == "" && "" + [line[0]] == "a";
    assert SplitWords(t, line, "") == SplitWords(t, "", "a");
    assert NonEmpty(["a"]) == NonEmpty(["a"][..0]) + 1;
  }

  lemma QuotedClasses(t: Tables, lexicon: Lexicon, text: string, x: Slot, y: Slot, z: Slot)
    requires IsQuotedLine(text)
    requires t.alphabetic('a') && t.uppercase('B') && lexicon("a") == Content && lexicon("B") == Content
    requires x == Slot(Word(Span(0, 1)), 0) && y == Slot(Punct(Span(2, 3)), 0) && z == Slot(Word(Span(3, 4)), 0)
    ensures AnyWord([x, y]) && LastWord([x, y]) == 0 && PreviousEnd([x, y]) == 3
    ensures ClassOf(t, lexicon, text, [], x) == Content
    ensures ClassOf(t, lexicon, text, [x], y) == Quote
    ensures ClassOf(t, lexicon, text, [x, y], z) == ProperNoun
  {
    QuotedTexts(text);
    OneWordIsNoTitle(t, lexicon, LineAround(text, 0));
    assert [x, y][..1] == [x] && [x][..0] == [];
    assert AnyWord([x]) && SeenWord(t, text, [x], 0) && !OnTitleLine(t, lexicon, text, [x]);
  }

  /** The tree the parser builds for it: one sentence of a word, a quotation mark and a word. */
  lemma QuotedLexemes(t: Tables, text: string)
    requires IsQuotedLine(text) && t.Valid() && t.letter('a') && t.letter('B')
    ensures Lex(t, text, 0)
            == [Lexeme(WordToken, 0, 1, false), Lexeme(QuoteToken, 2, 3, false), Lexeme(WordToken, 3, 4, false)]
  {
    assert SkipTo(text, 2) == 2 && SkipTo(text, 1) == 2;
    assert text[0..][1..][0] == '\n';
    assert LexemeAt(t, text, 0) == Lexeme(WordToken, 0, 1, false);
    assert text[3..][1..] == "";
    assert LexemeAt(t, text, 3) == Lexeme(WordToken, 3, 4, false);
    assert Lex(t, text, 4) == [];
    assert Lex(t, text, 3) == [Lexeme(WordToken, 3, 4, false)];
    assert Lex(t, text, 1) == [Lexeme(QuoteToken, 2, 3, false)] + Lex(t, text, 3);
  }

  lemma ThreeParts(parts: seq<Node>)
    requires |parts| == 3 && IsLeaf(parts[0]) && IsLeaf(parts[1]) && IsLeaf(parts[2])
    ensures SlotsOfParts(parts, 0) == [Slot(parts[0], 0), Slot(parts[1], 0), Slot(parts[2], 0)]
  {
    var two := parts[..2];
    var one := two[..1];
    assert one[..0] == [] && SlotsOfParts(one, 0) == [Slot(parts[0], 0)];
    assert SlotsOfParts(two, 0) == [Slot(parts[0], 0), Slot(parts[1], 0)];
  }

  lemma QuotedSentence(text: string, xs: seq<Lexeme>)
    requires IsQuotedLine(text)
    requires xs == [Lexeme(WordToken, 0, 1, false), Lexeme(QuoteToken, 2, 3, false), Lexeme(WordToken, 3, 4, false)]
    ensures SlotsOf(Sentences(text, Segments(text, xs)))
            == [Slot(Word(Span(0, 1)), 0), Slot(Punct(Span(2, 3)), 0), Slot(Word(Span(3, 4)), 0)]
  {
    assert FirstTerminator(xs, 2) == 3 && FirstTerminator(xs, 1) == 3 && SentenceLength(text, xs) == 3;
    assert xs[..3] == xs && xs[3..] == [];
    assert Segments(text, xs) == [xs];
    QuotedText(text, 0, 1);
    QuotedText(text, 2, 3);
    QuotedText(text, 3, 4);
    QuotedText(text, 1, 4);
    var parts := Leaves(text, xs);
    LeavesAt(text, xs, 0);
    LeavesAt(text, xs, 1);
    LeavesAt(text, xs, 2);
    SentencesAt(text, [xs], 0);
    assert parts == [Word(Span(0, 1)), Punct(Span(2, 3)), Word(Span(3, 4))];
    ThreeParts(parts);
    assert Sentences(text, [xs])[..0] == [];
  }

  lemma QuotedSlots(t: Tables, text: string)
    requires IsQuotedLine(text) && t.Valid() && t.letter('a') && t.letter('B')
    ensures SlotsOf(ParseTree(t, text).root.sentences)
            == [Slot(Word(Span(0, 1)), 0), Slot(Punct(Span(2, 3)), 0), Slot(Word(Span(3, 4)), 0)]
  {
    QuotedLexemes(t, text);
    QuotedSentence(text, Lex(t, text, 0));
  }

  lemma QuotedTokens(t: Tables, lexicon: Lexicon, text: string, ss: seq<Slot>)
    requires IsQuotedLine(text) && t.alphabetic('a') && t.uppercase('B') && lexicon("a") == Content && lexicon("B") == Content
    requires ss == [Slot(Word(Span(0, 1)), 0), Slot(Punct(Span(2, 3)), 0), Slot(Word(Span(3, 4)), 0)]
    ensures StartsLine(text, ss[..2], ss[2]) && Missed(text, ss[..2], ss[2])
    ensures LexicalTokens(t, lexicon, text, ss)
            == [Token(Span(0, 1), Content), Token(Span(2, 3), Quote), Token(Span(3, 4), ProperNoun)]
  {
    assert ss[..0] == [] && ss[..1] == [ss[0]] && ss[..2] == [ss[0], ss[1]];
    QuotedClasses(t, lexicon, text, ss[0], ss[1], ss[2]);
    QuotedTexts(text);
  }

  /** The second word opens a new line, behind a quotation mark, and is still classified as a proper noun. */
  lemma QuotedLineStartIsMissed(t: Tables, lexicon: Lexicon, text: string)
    requires IsQuotedLine(text) && t.Valid() && t.letter('a') && t.letter('B') && t.alphabetic('a') && t.uppercase('B')
    requires lexicon("a") == Content && lexicon("B") == Content
    ensures var ss := SlotsOf(ParseTree(t, text).root.sentences);
            && |ss| == 3 && ss[2].leaf == Word(Span(3, 4))
            && StartsLine(text, ss[..2], ss[2]) && Missed(text, ss[..2], ss[2])
    ensures LexicalAnnotation(t, lexicon, text, ParseTree(t, text))
            == [Token(Span(0, 1), Content), Token(Span(2, 3), Quote), Token(Span(3, 4), ProperNoun)]
  {
    QuotedSlots(t, text);
    QuotedTokens(t, lexicon, text, SlotsOf(ParseTree(t, text).root.sentences));
  }
}
