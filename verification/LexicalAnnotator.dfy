/**
  The context-free annotator: lexicon classes for words, structural classes for
  punctuation, and a proper-noun heuristic that looks at what came before in the
  same sentence and line.
 */
module LexicalAnnotator {
  import opened Text
  import opened Characters
  import opened Coordinates
  import opened Syntax
  import opened Unicode
  import opened Classification

  type Lexicon = string -> PosClass

  /** A leaf and the sentence it belongs to. */
  datatype Slot = Slot(leaf: Node, sentence: nat)

  function SlotsOfParts(parts: seq<Node>, sentence: nat): seq<Slot> {
    if parts == [] then []
    else
      var last := parts[|parts| - 1];
      SlotsOfParts(parts[..|parts| - 1], sentence) + if IsLeaf(last) then [Slot(last, sentence)] else []
  }

  /** The leaves the annotator visits, in order; anything that is not a leaf of a sentence is passed over. */
  function SlotsOf(sentences: seq<Node>): seq<Slot> {
    if sentences == [] then []
    else
      var n := |sentences| - 1;
      SlotsOf(sentences[..n]) + if sentences[n].Sentence? then SlotsOfParts(sentences[n].parts, n) else []
  }

  // ----- Lines and capitals -----

  predicate IsCapitalized(t: Tables, word: string) {
    word != "" && t.uppercase(word[0])
  }

  predicate IsQuote(s: string) {
    s != "" && forall i :: 0 <= i < |s| ==> IsQuoteMark(s[i])
  }

  predicate HasNewline(s: string) {
    exists i :: 0 <= i < |s| && IsNewline(s[i])
  }

  function BackToNewline(s: string, k: nat): (r: nat)
    requires k <= |s|
    ensures r <= k && (r > 0 ==> IsNewline(s[r - 1]))
    ensures forall j :: r <= j < k ==> !IsNewline(s[j])
  {
    if k == 0 || IsNewline(s[k - 1]) then k else BackToNewline(s, k - 1)
  }

  function OnToNewline(s: string, k: nat): (r: nat)
    requires k <= |s|
    ensures k <= r <= |s| && (r < |s| ==> IsNewline(s[r]))
    ensures forall j :: k <= j < r ==> !IsNewline(s[j])
    decreases |s| - k
  {
    if k == |s| || IsNewline(s[k]) then k else OnToNewline(s, k + 1)
  }

  /** The text between the line breaks around byte `b`, or nothing when `b` splits a character. */
  function LineAround(source: string, b: nat): (line: string)
    ensures !HasNewline(line)
  {
    var byte := if b <= ByteLen(source) then b else ByteLen(source);
    var k := FloorIndex(source, byte);
    if !IsBoundary(source, byte) then ""
    else
      var from, to := BackToNewline(source, k), OnToNewline(source, k);
      assert forall j :: 0 <= j < to - from ==> source[from..to][j] == source[from + j];
      source[from..to]
  }

  predicate IsLineWordCharacter(t: Tables, c: char) {
    t.alphabetic(c) || c == '\'' || c == '\U{2019}'
  }

  /** Split at every character that cannot be in a word; empty pieces included. */
  function SplitWords(t: Tables, line: string, word: string): seq<string>
    decreases |line|
  {
    if line == "" then [word]
    else if IsLineWordCharacter(t, line[0]) then SplitWords(t, line[1..], word + [line[0]])
    else [word] + SplitWords(t, line[1..], "")
  }

  /** The words counted as capitalized. */
  function Capitals(t: Tables, words: seq<string>): nat {
    if words == [] then 0
    else Capitals(t, words[..|words| - 1]) + if IsCapitalized(t, words[|words| - 1]) then 1 else 0
  }

  function NonEmpty(words: seq<string>): nat {
    if words == [] then 0 else NonEmpty(words[..|words| - 1]) + if words[|words| - 1] != "" then 1 else 0
  }

  /** At least two words, at least two capitalized, and every other word a function word. */
  predicate IsTitleCase(t: Tables, lexicon: Lexicon, line: string) {
    var words := SplitWords(t, line, "");
    && NonEmpty(words) >= 2
    && Capitals(t, words) >= 2
    && forall i :: 0 <= i < |words| && words[i] != "" && !IsCapitalized(t, words[i]) ==> lexicon(words[i]).Function?
  }

  method LineIsTitleCase(t: Tables, lexicon: Lexicon, line: string) returns (title: bool)
    ensures title == IsTitleCase(t, lexicon, line)
  {
    var split := SplitWords(t, line, "");
    var words, capitalized := 0, 0;
    for i := 0 to |split|
      invariant words == NonEmpty(split[..i]) && capitalized == Capitals(t, split[..i])
      invariant forall j :: 0 <= j < i && split[j] != "" && !IsCapitalized(t, split[j]) ==> lexicon(split[j]).Function?
    {
      var word := split[i];
      assert split[..i + 1][..i] == split[..i];
      if word == "" {
        continue;
      }
      words := words + 1;
      if IsCapitalized(t, word) {
        capitalized := capitalized + 1;
      } else if !lexicon(word).Function? {
        return false;
      }
    }
    assert split[..|split|] == split;
    return words >= 2 && capitalized >= 2;
  }

  // ----- The class of a leaf, from the leaves before it -----

  predicate AnyWord(before: seq<Slot>) {
    before != [] && (before[|before| - 1].leaf.Word? || AnyWord(before[..|before| - 1]))
  }

  function PreviousEnd(before: seq<Slot>): nat {
    if before == [] then 0 else NodeSpan(before[|before| - 1].leaf).end
  }

  /** The first word, or a word with a line break directly before it, after the previous leaf. */
  predicate CrossedLine(source: string, before: seq<Slot>, slot: Slot) {
    !AnyWord(before) || HasNewline(SpanText(source, Span(PreviousEnd(before), NodeSpan(slot.leaf).start)))
  }

  predicate StartsAlphabetic(t: Tables, source: string, slot: Slot) {
    var text := SpanText(source, NodeSpan(slot.leaf));
    text != "" && t.alphabetic(text[0])
  }

  /** Whether an alphabetic word of the sentence came since a line was last seen to start. */
  predicate SeenWord(t: Tables, source: string, before: seq<Slot>, sentence: nat) {
    before != []
    && var init, last := before[..|before| - 1], before[|before| - 1];
       && last.sentence == sentence
       && if last.leaf.Word? then
            StartsAlphabetic(t, source, last)
            || (!CrossedLine(source, init, last) && SeenWord(t, source, init, sentence))
          else SeenWord(t, source, init, sentence)
  }

  /** Whether the line last entered is a title. */
  predicate OnTitleLine(t: Tables, lexicon: Lexicon, source: string, before: seq<Slot>) {
    before != []
    && var init, last := before[..|before| - 1], before[|before| - 1];
       if last.leaf.Word? && CrossedLine(source, init, last)
       then IsTitleCase(t, lexicon, LineAround(source, NodeSpan(last.leaf).start))
       else OnTitleLine(t, lexicon, source, init)
  }

  function ClassOf(t: Tables, lexicon: Lexicon, source: string, before: seq<Slot>, slot: Slot): PosClass {
    var text := SpanText(source, NodeSpan(slot.leaf));
    if !slot.leaf.Word? then (if IsQuote(text) then Quote else Punctuation)
    else if (lexicon(text) == Content || lexicon(text).Open?)
            && !CrossedLine(source, before, slot) && SeenWord(t, source, before, slot.sentence)
            && !OnTitleLine(t, lexicon, source, before)
            && IsCapitalized(t, text) then ProperNoun
    else lexicon(text)
  }

  /** The token of leaf `i`, which depends on the leaves before it and on nothing after. */
  function TokenAt(t: Tables, lexicon: Lexicon, source: string, ss: seq<Slot>, i: nat): Token
    requires i < |ss|
  {
    Token(NodeSpan(ss[i].leaf), ClassOf(t, lexicon, source, ss[..i], ss[i]))
  }

  function LexicalTokens(t: Tables, lexicon: Lexicon, source: string, ss: seq<Slot>): (tokens: seq<Token>) {
    seq(|ss|, i requires 0 <= i < |ss| => TokenAt(t, lexicon, source, ss, i))
  }

  /** Leaf `m` is in the sentence and, if a word, was not seen to start a line. */
  predicate Continues(source: string, before: seq<Slot>, sentence: nat, m: nat)
    requires m < |before|
  {
    before[m].sentence == sentence && (before[m].leaf.Word? ==> !CrossedLine(source, before[..m], before[m]))
  }

  /** An alphabetic word of the sentence, with every later leaf in the same sentence and none seen to start a line. */
  ghost predicate WordBeforeOnLine(t: Tables, source: string, before: seq<Slot>, sentence: nat, j: nat) {
    && j < |before|
    && before[j].sentence == sentence && before[j].leaf.Word? && StartsAlphabetic(t, source, before[j])
    && forall m :: j < m < |before| ==> Continues(source, before, sentence, m)
  }

  lemma ContinuesInPrefix(source: string, before: seq<Slot>, sentence: nat, n: nat, m: nat)
    requires m < n <= |before|
    ensures Continues(source, before[..n], sentence, m) <==> Continues(source, before, sentence, m)
  {
    assert before[..n][..m] == before[..m];
  }

  lemma WordBeforeStep(t: Tables, source: string, before: seq<Slot>, sentence: nat, j: nat)
    requires before != [] && j < |before| - 1
    ensures var n := |before| - 1;
            WordBeforeOnLine(t, source, before, sentence, j)
            <==> WordBeforeOnLine(t, source, before[..n], sentence, j) && Continues(source, before, sentence, n)
  {
    var n := |before| - 1;
    assert before[..n][j] == before[j];
    forall m | j < m < n
      ensures Continues(source, before[..n], sentence, m) <==> Continues(source, before, sentence, m)
    {
      ContinuesInPrefix(source, before, sentence, n, m);
    }
  }

  lemma {:induction false} SeenWordHasAWitness(t: Tables, source: string, before: seq<Slot>, sentence: nat) returns (j: nat)
    requires SeenWord(t, source, before, sentence)
    ensures WordBeforeOnLine(t, source, before, sentence, j)
    decreases |before|
  {
    var n := |before| - 1;
    if before[n].leaf.Word? && StartsAlphabetic(t, source, before[n]) {
      j := n;
    } else {
      j := SeenWordHasAWitness(t, source, before[..n], sentence);
      WordBeforeStep(t, source, before, sentence, j);
    }
  }

  lemma {:induction false} WitnessIsSeen(t: Tables, source: string, before: seq<Slot>, sentence: nat, j: nat)
    requires WordBeforeOnLine(t, source, before, sentence, j)
    ensures SeenWord(t, source, before, sentence)
    decreases |before|
  {
    var n := |before| - 1;
    if j < n {
      WordBeforeStep(t, source, before, sentence, j);
      WitnessIsSeen(t, source, before[..n], sentence, j);
    }
  }

  /** What the annotator's `seen_word` flag means. */
  lemma SeenWordMeans(t: Tables, source: string, before: seq<Slot>, sentence: nat)
    ensures SeenWord(t, source, before, sentence) <==> exists j: nat :: WordBeforeOnLine(t, source, before, sentence, j)
  {
    if SeenWord(t, source, before, sentence) {
      var j := SeenWordHasAWitness(t, source, before, sentence);
    }
    forall j: nat | WordBeforeOnLine(t, source, before, sentence, j)
      ensures SeenWord(t, source, before, sentence)
    {
      WitnessIsSeen(t, source, before, sentence, j);
    }
  }

  // ----- The annotator -----

  lemma LexicalStep(t: Tables, lexicon: Lexicon, source: string, ss: seq<Slot>, slot: Slot)
    ensures LexicalTokens(t, lexicon, source, ss + [slot])
            == LexicalTokens(t, lexicon, source, ss)
               + [Token(NodeSpan(slot.leaf), ClassOf(t, lexicon, source, ss, slot))]
  {
    var all := ss + [slot];
    assert all[..|ss|] == ss;
    forall i | 0 <= i < |ss|
      ensures TokenAt(t, lexicon, source, all, i) == TokenAt(t, lexicon, source, ss, i)
    {
      assert all[..i] == ss[..i];
    }
  }

  /** The loop's flags after the leaves in `ss`. */
  ghost predicate Flags(t: Tables, lexicon: Lexicon, source: string, ss: seq<Slot>, sentence: nat,
                        prevEnd: nat, lineKnown: bool, lineIsTitle: bool, seenWord: bool)
  {
    && prevEnd == PreviousEnd(ss)
    && lineKnown == AnyWord(ss)
    && lineIsTitle == OnTitleLine(t, lexicon, source, ss)
    && seenWord == SeenWord(t, source, ss, sentence)
  }

  /** One leaf: its token, and the flags after it. */
  method AnnotateLeaf(t: Tables, lexicon: Lexicon, source: string, part: Node, ghost ss: seq<Slot>, ghost sentence: nat,
                      prevEnd: nat, lineKnown: bool, lineIsTitle: bool, seenWord: bool)
    returns (token: Token, prevEnd': nat, lineKnown': bool, lineIsTitle': bool, seenWord': bool)
    requires IsLeaf(part) && Flags(t, lexicon, source, ss, sentence, prevEnd, lineKnown, lineIsTitle, seenWord)
    ensures token == Token(NodeSpan(part), ClassOf(t, lexicon, source, ss, Slot(part, sentence)))
    ensures Flags(t, lexicon, source, ss + [Slot(part, sentence)], sentence, prevEnd', lineKnown', lineIsTitle', seenWord')
  {
    ghost var ss' := ss + [Slot(part, sentence)];
    assert ss'[..|ss'| - 1] == ss && ss'[|ss'| - 1] == Slot(part, sentence);
    var span := NodeSpan(part);
    var text := SpanText(source, span);
    prevEnd', lineKnown', lineIsTitle', seenWord' := span.end, lineKnown, lineIsTitle, seenWord;
    if part.Punct? {
      return Token(span, if IsQuote(text) then Quote else Punctuation), prevEnd', lineKnown', lineIsTitle', seenWord';
    }
    var crossedLine := !lineKnown || HasNewline(SpanText(source, Span(prevEnd, span.start)));
    if crossedLine {
      seenWord' := false;
      lineIsTitle' := LineIsTitleCase(t, lexicon, LineAround(source, span.start));
      lineKnown' := true;
    }
    var pos := lexicon(text);
    if (pos == Content || pos.Open?) && seenWord' && !lineIsTitle' && IsCapitalized(t, text) {
      pos := ProperNoun;
    }
    if text != "" && t.alphabetic(text[0]) {
      seenWord' := true;
    }
    token := Token(span, pos);
  }

  lemma {:induction false} PartSlotsBelong(parts: seq<Node>, sentence: nat)
    ensures forall s <- SlotsOfParts(parts, sentence) :: IsLeaf(s.leaf) && s.leaf in parts && s.sentence == sentence
    decreases |parts|
  {
    if parts != [] {
      PartSlotsBelong(parts[..|parts| - 1], sentence);
    }
  }

  lemma {:induction false} SlotsBelong(sentences: seq<Node>)
    ensures forall s <- SlotsOf(sentences) ::
              && IsLeaf(s.leaf) && s.sentence < |sentences|
              && sentences[s.sentence].Sentence? && s.leaf in sentences[s.sentence].parts
    decreases |sentences|
  {
    if sentences != [] {
      var n := |sentences| - 1;
      SlotsBelong(sentences[..n]);
      if sentences[n].Sentence? {
        PartSlotsBelong(sentences[n].parts, n);
      }
    }
  }

  lemma SentenceStartsUnseen(t: Tables, source: string, sentences: seq<Node>)
    ensures !SeenWord(t, source, SlotsOf(sentences), |sentences|)
  {
    SlotsBelong(sentences);
    var ss := SlotsOf(sentences);
    assert ss != [] ==> ss[|ss| - 1] in ss;
  }

  lemma SlotsStep(sentences: seq<Node>, i: nat)
    requires i < |sentences|
    ensures SlotsOf(sentences[..i + 1])
            == if sentences[i].Sentence? then SlotsOf(sentences[..i]) + SlotsOfParts(sentences[i].parts, i)
               else SlotsOf(sentences[..i])
  {
    assert sentences[..i + 1][..i] == sentences[..i];
  }

  method Annotate(t: Tables, lexicon: Lexicon, source: string, tree: Tree) returns (tokens: seq<Token>)
    ensures tokens == LexicalTokens(t, lexicon, source, if tree.root.Document? then SlotsOf(tree.root.sentences) else [])
  {
    tokens := [];
    if !tree.root.Document? {
      return;
    }
    var sentences := tree.root.sentences;
    var prevEnd, lineKnown, lineIsTitle := 0, false, false;
    for i := 0 to |sentences|
      invariant tokens == LexicalTokens(t, lexicon, source, SlotsOf(sentences[..i]))
      invariant prevEnd == PreviousEnd(SlotsOf(sentences[..i]))
      invariant lineKnown == AnyWord(SlotsOf(sentences[..i]))
      invariant lineIsTitle == OnTitleLine(t, lexicon, source, SlotsOf(sentences[..i]))
    {
      SlotsStep(sentences, i);
      if sentences[i].Sentence? {
        SentenceStartsUnseen(t, source, sentences[..i]);
        ghost var seen;
        tokens, prevEnd, lineKnown, lineIsTitle, seen :=
          AnnotateSentence(t, lexicon, source, sentences[i].parts, i, SlotsOf(sentences[..i]), tokens,
                           prevEnd, lineKnown, lineIsTitle);
      }
    }
    assert sentences[..|sentences|] == sentences;
  }

  lemma PartSlotsStep(ss: seq<Slot>, parts: seq<Node>, sentence: nat, j: nat)
    requires j < |parts|
    ensures ss + SlotsOfParts(parts[..j + 1], sentence)
            == if IsLeaf(parts[j]) then ss + SlotsOfParts(parts[..j], sentence) + [Slot(parts[j], sentence)]
               else ss + SlotsOfParts(parts[..j], sentence)
  {
    assert parts[..j + 1][..j] == parts[..j];
  }

  method AnnotateSentence(t: Tables, lexicon: Lexicon, source: string, parts: seq<Node>, ghost sentence: nat,
                          ghost ss: seq<Slot>, tokens: seq<Token>, prevEnd: nat, lineKnown: bool, lineIsTitle: bool)
    returns (tokens': seq<Token>, prevEnd': nat, lineKnown': bool, lineIsTitle': bool, ghost seen: seq<Slot>)
    requires tokens == LexicalTokens(t, lexicon, source, ss)
    requires Flags(t, lexicon, source, ss, sentence, prevEnd, lineKnown, lineIsTitle, false)
    ensures seen == ss + SlotsOfParts(parts, sentence)
    ensures tokens' == LexicalTokens(t, lexicon, source, seen)
    ensures prevEnd' == PreviousEnd(seen) && lineKnown' == AnyWord(seen)
    ensures lineIsTitle' == OnTitleLine(t, lexicon, source, seen)
  {
    tokens', prevEnd', lineKnown', lineIsTitle' := tokens, prevEnd, lineKnown, lineIsTitle;
    var seenWord := false;
    seen := ss;
    for j := 0 to |parts|
      invariant seen == ss + SlotsOfParts(parts[..j], sentence)
      invariant tokens' == LexicalTokens(t, lexicon, source, seen)
      invariant Flags(t, lexicon, source, seen, sentence, prevEnd', lineKnown', lineIsTitle', seenWord)
    {
      PartSlotsStep(ss, parts, sentence, j);
      if IsLeaf(parts[j]) {
        var token;
        token, prevEnd', lineKnown', lineIsTitle', seenWord :=
          AnnotateLeaf(t, lexicon, source, parts[j], seen, sentence, prevEnd', lineKnown', lineIsTitle', seenWord);
        LexicalStep(t, lexicon, source, seen, Slot(parts[j], sentence));
        tokens' := tokens' + [token];
        seen := seen + [Slot(parts[j], sentence)];
      }
    }
    assert parts[..|parts|] == parts;
  }
}
