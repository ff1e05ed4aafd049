/**
  The class of every leaf, said of the tokens the lexical annotator returns and
  without its flags: by the leaf's own text, the lexicon's answer, and the words
  before it.
 */
module LexicalClasses {
  import opened Characters
  import opened Syntax
  import opened Unicode
  import opened NumericScanner
  import opened ProseParser
  import opened ParsedLeaves
  import opened Classification
  import opened ContextualAnnotator
  import opened LexicalAnnotator
  import opened BuiltinAdapters

  /** Leaf `e` is the last word seen to start a line. */
  predicate LastLineStart(source: string, before: seq<Slot>, e: nat) {
    && e < |before| && before[e].leaf.Word? && CrossedLine(source, before[..e], before[e])
    && forall m :: e < m < |before| && before[m].leaf.Word? ==> !CrossedLine(source, before[..m], before[m])
  }

  /** The line that word started is a title. */
  predicate StartsTitle(t: Tables, lexicon: Lexicon, source: string, before: seq<Slot>, e: nat) {
    LastLineStart(source, before, e) && IsTitleCase(t, lexicon, LineAround(source, NodeSpan(before[e].leaf).start))
  }

  lemma LineStartStep(source: string, before: seq<Slot>, e: nat)
    requires before != [] && e < |before| - 1
    ensures var n := |before| - 1;
            LastLineStart(source, before, e)
            <==> LastLineStart(source, before[..n], e)
                 && !(before[n].leaf.Word? && CrossedLine(source, before[..n], before[n]))
  {
    var n := |before| - 1;
    assert before[..n][e] == before[e] && before[..n][..e] == before[..e];
    forall m | e < m < n
      ensures before[..n][m] == before[m] && before[..n][..m] == before[..m]
    {
    }
  }

  predicate StartsLineNow(source: string, before: seq<Slot>) {
    before != []
    && var n := |before| - 1; before[n].leaf.Word? && CrossedLine(source, before[..n], before[n])
  }

  lemma StartsTitleStep(t: Tables, lexicon: Lexicon, source: string, before: seq<Slot>, e: nat)
    requires before != [] && e < |before| - 1
    ensures StartsTitle(t, lexicon, source, before, e)
            <==> StartsTitle(t, lexicon, source, before[..|before| - 1], e) && !StartsLineNow(source, before)
  {
    LineStartStep(source, before, e);
  }

  lemma {:induction false} TitleHasAStart(t: Tables, lexicon: Lexicon, source: string, before: seq<Slot>)
    returns (e: nat)
    requires OnTitleLine(t, lexicon, source, before)
    ensures StartsTitle(t, lexicon, source, before, e)
    decreases |before|
  {
    e := |before| - 1;
    if !StartsLineNow(source, before) {
      e := TitleHasAStart(t, lexicon, source, before[..|before| - 1]);
      StartsTitleStep(t, lexicon, source, before, e);
    }
  }

  lemma {:induction false} StartIsOfATitle(t: Tables, lexicon: Lexicon, source: string, before: seq<Slot>, e: nat)
    requires StartsTitle(t, lexicon, source, before, e)
    ensures OnTitleLine(t, lexicon, source, before)
    decreases |before|
  {
    if e < |before| - 1 {
      StartsTitleStep(t, lexicon, source, before, e);
      StartIsOfATitle(t, lexicon, source, before[..|before| - 1], e);
    }
  }

  /** What the annotator's `line_is_title` flag means. */
  lemma OnTitleLineMeans(t: Tables, lexicon: Lexicon, source: string, before: seq<Slot>)
    ensures OnTitleLine(t, lexicon, source, before) <==> exists e: nat :: StartsTitle(t, lexicon, source, before, e)
  {
    if OnTitleLine(t, lexicon, source, before) {
      var e := TitleHasAStart(t, lexicon, source, before);
    }
    forall e: nat | StartsTitle(t, lexicon, source, before, e)
      ensures OnTitleLine(t, lexicon, source, before)
    {
      StartIsOfATitle(t, lexicon, source, before, e);
    }
  }

  /**
    A capitalized word the lexicon leaves open, not seen to start a line, behind an
    alphabetic word of its sentence on the line as seen, where that line is no title.
   */
  ghost predicate IsMidLineName(t: Tables, lexicon: Lexicon, source: string, before: seq<Slot>, slot: Slot) {
    var own := SpanText(source, NodeSpan(slot.leaf));
    && (lexicon(own) == Content || lexicon(own).Open?)
    && own != "" && t.uppercase(own[0])
    && !CrossedLine(source, before, slot)
    && (exists j: nat :: WordBeforeOnLine(t, source, before, slot.sentence, j))
    && !(exists e: nat :: StartsTitle(t, lexicon, source, before, e))
  }

  predicate AllQuoteMarks(s: string) {
    s != "" && forall i :: 0 <= i < |s| ==> IsQuoteMark(s[i])
  }

  /** The class of every leaf of every tree. */
  lemma LexicalClassesAreExact(t: Tables, lexicon: Lexicon, source: string, sentences: seq<Node>,
                               before: seq<Slot>, slot: Slot)
    requires before + [slot] <= SlotsOf(sentences)
    ensures |before| < |LexicalAnnotation(t, lexicon, source, Tree(Document(sentences)))|
    ensures var token := LexicalAnnotation(t, lexicon, source, Tree(Document(sentences)))[|before|];
            var own := SpanText(source, NodeSpan(slot.leaf));
            && token.span == NodeSpan(slot.leaf)
            && (slot.leaf.Punct? ==> token.pos == if AllQuoteMarks(own) then Quote else Punctuation)
            && (slot.leaf.Word? ==>
                  token.pos == if IsMidLineName(t, lexicon, source, before, slot) then ProperNoun else lexicon(own))
    ensures slot.sentence < |sentences| && sentences[slot.sentence].Sentence?
            && slot.leaf in sentences[slot.sentence].parts && (slot.leaf.Word? || slot.leaf.Punct?)
  {
    var ss := SlotsOf(sentences);
    assert ss[|before|] == (before + [slot])[|before|] == slot && ss[..|before|] == before;
    SlotsBelong(sentences);
    SeenWordMeans(t, source, before, slot.sentence);
    OnTitleLineMeans(t, lexicon, source, before);
  }

  /** The annotator visits the leaves of a parse one by one. */
  lemma SlotOfLeaf(t: Tables, text: string, k: nat)
    requires k < |LeavesOf(ParseTree(t, text).root.sentences)|
    ensures var ss := SlotsOf(ParseTree(t, text).root.sentences);
            k < |ss| && ss[k].leaf == LeavesOf(ParseTree(t, text).root.sentences)[k] && ss[..k] + [ss[k]] <= ss
  {
    var sentences := ParseTree(t, text).root.sentences;
    ParseTreeIsOk(t, text);
    forall i | 0 <= i < |sentences|
      ensures IsSentenceOfLeaves(sentences[i])
    {
      assert SentenceOk(text, sentences[i]);
    }
    SlotLeaves(sentences);
    assert LeafNodes(SlotsOf(sentences))[k] == SlotsOf(sentences)[k].leaf;
  }

  /** With a lexicon that knows its numbers, every numeral of a parse is classified as a number, in context or not. */
  lemma NumeralsAreNumbers(t: Tables, lexicon: Lexicon, text: string, k: nat)
    requires t.Valid() && forall word: string :: IsNumber(t, word) ==> lexicon(word) == Number
    requires k < |LeavesOf(ParseTree(t, text).root.sentences)|
    requires IsNumeral(t, SpanText(text, NodeSpan(LeavesOf(ParseTree(t, text).root.sentences)[k])))
    ensures var tree := ParseTree(t, text);
            && k < |LexicalAnnotation(t, lexicon, text, tree)| && LexicalAnnotation(t, lexicon, text, tree)[k].pos == Number
            && ContextualAnnotation(t, lexicon, text, tree)[k].pos == Number
  {
    var sentences := ParseTree(t, text).root.sentences;
    SlotOfLeaf(t, text, k);
    NumeralLeavesAreNumbers(t, text, k);
    LexicalClassesAreExact(t, lexicon, text, sentences, SlotsOf(sentences)[..k], SlotsOf(sentences)[k]);
    RefinedAt(text, LexicalAnnotation(t, lexicon, text, ParseTree(t, text)), k);
  }
}
