/**
  Which ambiguous words the contextual annotator resolves, and to what, said of
  the tokens it returns: by the token's own text, the refined token before it and
  the original token after it.
 */
module ContextualSenses {
  import opened Text
  import opened Syntax
  import opened Classification
  import opened ContextualAnnotator

  /** The text of token `i` in lower case. */
  function LowerText(source: string, tokens: seq<Token>, i: nat): string
    requires i < |tokens|
  {
    AsciiLower(SpanText(source, tokens[i].span))
  }

  predicate EndsInOneS(word: string) {
    |word| > 1 && word[|word| - 1] == 's' && word[|word| - 2] != 's'
  }

  /** Behind `to`, a pronoun, an auxiliary, a noun, a proper noun or a content word that looks plural. */
  predicate AfterSubject(source: string, tokens: seq<Token>, i: nat)
    requires i <= |tokens|
  {
    i > 0
    && var (pos, word) := (tokens[i - 1].pos, LowerText(source, tokens, i - 1));
       && pos != Punctuation && pos != Quote
       && (|| word == "to"
           || pos == Function(Pronoun) || pos == Function(Auxiliary) || pos == Open(Noun) || pos == ProperNoun
           || (pos == Content && EndsInOneS(word)))
  }

  /** Behind an article, a determiner, a preposition or an adjective, `to` excepted. */
  predicate AfterModifier(source: string, tokens: seq<Token>, i: nat)
    requires i <= |tokens|
  {
    i > 0
    && var (pos, word) := (tokens[i - 1].pos, LowerText(source, tokens, i - 1));
       && word != "to"
       && (pos == Function(Article) || pos == Function(Determiner) || pos == Function(Preposition)
           || pos == Open(Adjective))
  }

  predicate AfterVerb(tokens: seq<Token>, i: nat)
    requires i <= |tokens|
  {
    i > 0 && tokens[i - 1].pos == Open(Verb)
  }

  /** Before a content word, a noun or a proper noun. */
  predicate BeforeNoun(tokens: seq<Token>, i: nat) {
    i + 1 < |tokens|
    && (tokens[i + 1].pos == Content || tokens[i + 1].pos == Open(Noun) || tokens[i + 1].pos == ProperNoun)
  }

  /** The token reads as one of the classes, each exactly under its condition, and stays a content word otherwise. */
  predicate ReadsAs(pos: PosClass, verb: bool, noun: bool, adjective: bool, adverb: bool) {
    && (pos == Open(Verb) <==> verb) && (pos == Open(Noun) <==> noun)
    && (pos == Open(Adjective) <==> adjective) && (pos == Open(Adverb) <==> adverb)
    && (pos == Content <==> !verb && !noun && !adjective && !adverb)
  }

  lemma FirstOfTwo(a: Sense, b: Sense, previous: Context, next: Context)
    ensures FirstSense([a, b], previous, next)
            == if a.evidence.Holds(previous, next) then Some(a.kind)
               else if b.evidence.Holds(previous, next) then Some(b.kind)
               else None
  {
    assert [a, b][1..] == [b] && [b][1..] == [];
  }

  lemma FirstOfThree(a: Sense, b: Sense, c: Sense, previous: Context, next: Context)
    ensures FirstSense([a, b, c], previous, next)
            == if a.evidence.Holds(previous, next) then Some(a.kind) else FirstSense([b, c], previous, next)
  {
    assert [a, b, c][1..] == [b, c];
  }

  /** What the neighbours make of a word. */
  lemma KindsOf(text: string, previous: Context, next: Context)
    ensures var word := AsciiLower(text);
            var subject := previous.Some? && IsVerbTrigger(previous.value);
            var modifier := previous.Some? && IsNominalTrigger(previous.value);
            var verb := previous.Some? && IsVerbContext(previous.value);
            var noun := next.Some? && IsNounishContext(next.value);
            ContextualKind(text, previous, next)
            == if word == "book" || word == "record" then
                 (if subject then Some(Verb) else if modifier then Some(Noun) else None)
               else if word == "lead" then
                 (if subject then Some(Verb) else if modifier && noun then Some(Adjective)
                  else if modifier then Some(Noun) else None)
               else if word == "fast" then
                 (if verb then Some(Adverb) else if noun then Some(Adjective) else None)
               else None
  {
    FirstOfTwo(Sense(Verb, VerbTrigger), Sense(Noun, NominalTrigger), previous, next);
    FirstOfTwo(Sense(Adjective, NominalTriggerThenNounish), Sense(Noun, NominalTrigger), previous, next);
    FirstOfTwo(Sense(Adverb, VerbBefore), Sense(Adjective, NounishAfter), previous, next);
    FirstOfThree(Sense(Verb, VerbTrigger), Sense(Adjective, NominalTriggerThenNounish), Sense(Noun, NominalTrigger),
                 previous, next);
  }

  /** Every token of the refined list: which content words are resolved, to what, and that nothing else changes. */
  lemma RefinedSenses(source: string, tokens: seq<Token>, i: nat)
    requires i < |tokens|
    ensures var r := RefinedAll(source, tokens);
            var word := LowerText(source, tokens, i);
            var subject, modifier := AfterSubject(source, r, i), AfterModifier(source, r, i);
            && r[i].span == tokens[i].span
            && (tokens[i].pos != Content ==> r[i].pos == tokens[i].pos)
            && (tokens[i].pos == Content ==>
                  if word == "book" || word == "record" then
                    ReadsAs(r[i].pos, subject, !subject && modifier, false, false)
                  else if word == "lead" then
                    ReadsAs(r[i].pos, subject, !subject && modifier && !BeforeNoun(tokens, i),
                            !subject && modifier && BeforeNoun(tokens, i), false)
                  else if word == "fast" then
                    ReadsAs(r[i].pos, false, false, !AfterVerb(r, i) && BeforeNoun(tokens, i), AfterVerb(r, i))
                  else r[i].pos == Content)
  {
    RefinedAt(source, tokens, i);
    var r := RefinedAll(source, tokens);
    LeftContext(source, r, i);
    RightContext(source, tokens, i);
    KindsOf(SpanText(source, tokens[i].span), ContextAt(source, r, i - 1), ContextAt(source, tokens, i + 1));
  }

  lemma RightContext(source: string, tokens: seq<Token>, i: nat)
    ensures var next := ContextAt(source, tokens, i + 1);
            next.Some? && IsNounishContext(next.value) <==> BeforeNoun(tokens, i)
  {
  }

  lemma LeftContext(source: string, r: seq<Token>, i: nat)
    requires i <= |r|
    ensures var previous := ContextAt(source, r, i - 1);
            && (previous.Some? && IsVerbTrigger(previous.value) <==> AfterSubject(source, r, i))
            && (previous.Some? && IsNominalTrigger(previous.value) <==> AfterModifier(source, r, i))
            && (previous.Some? && IsVerbContext(previous.value) <==> AfterVerb(r, i))
  {
  }

  /** Lower case is per character, and only of ASCII letters. */
  lemma {:induction false} AsciiLowerAt(s: string, k: nat)
    requires k < |s|
    ensures AsciiLower(s)[k] as int == s[k] as int + if 'A' <= s[k] <= 'Z' then 32 else 0
  {
    if k > 0 {
      AsciiLowerAt(s[1..], k - 1);
    }
  }

  // ----- Subjects, as documented and as coded -----

  /** Behind `to`, a pronoun or an auxiliary, or behind a noun, proper noun or content word that looks plural. */
  predicate AfterPluralSubject(source: string, tokens: seq<Token>, i: nat)
    requires i <= |tokens|
  {
    i > 0
    && var (pos, word) := (tokens[i - 1].pos, LowerText(source, tokens, i - 1));
       && pos != Punctuation && pos != Quote
       && (|| word == "to" || pos == Function(Pronoun) || pos == Function(Auxiliary)
           || ((pos == Open(Noun) || pos == ProperNoun || pos == Content) && EndsInOneS(word)))
  }

  /** Behind a noun or proper noun that does not look plural. */
  predicate AfterSingularNoun(source: string, tokens: seq<Token>, i: nat)
    requires i <= |tokens|
  {
    i > 0
    && var (pos, word) := (tokens[i - 1].pos, LowerText(source, tokens, i - 1));
       (pos == Open(Noun) || pos == ProperNoun) && !EndsInOneS(word) && word != "to"
  }

  /** The code takes for subjects what is documented, and singular nouns besides. */
  lemma SubjectsAreAlsoSingular(source: string, tokens: seq<Token>, i: nat)
    requires i <= |tokens|
    ensures AfterSubject(source, tokens, i) <==> AfterPluralSubject(source, tokens, i) || AfterSingularNoun(source, tokens, i)
    ensures !(AfterPluralSubject(source, tokens, i) && AfterSingularNoun(source, tokens, i))
  {
  }

  /** In `dog book`, with `dog` a noun, `book` is read as a verb. */
  lemma SingularNounReadsAsSubject(source: string, tokens: seq<Token>)
    requires source == "dog book" && tokens == [Token(Span(0, 3), Open(Noun)), Token(Span(4, 8), Content)]
    ensures RefinedAll(source, tokens)[1].pos == Open(Verb)
    ensures AfterSingularNoun(source, RefinedAll(source, tokens), 1)
  {
    WordsOfDogBook(source);
    RefinedSenses(source, tokens, 0);
    RefinedSenses(source, tokens, 1);
  }

  lemma WordsOfDogBook(source: string)
    requires source == "dog book"
    ensures AsciiLower(SpanText(source, Span(0, 3))) == "dog" && AsciiLower(SpanText(source, Span(4, 8))) == "book"
  {
    OneByteEach(source, 8);
    OneByteEach(source, 4);
    OneByteEach(source, 3);
    IndexOfOffset(source, 0);
    IndexOfOffset(source, 3);
    IndexOfOffset(source, 4);
    IndexOfOffset(source, 8);
    assert source[0..3] == "dog" && source[4..8] == "book";
    LowerIsSame("dog");
    LowerIsSame("book");
  }

  lemma {:induction false} OneByteEach(source: string, k: nat)
    requires k <= |source| && forall i :: 0 <= i < |source| ==> source[i] as int < 0x80
    ensures ByteOffset(source, k) == k
  {
    if k > 0 {
      OneByteEach(source, k - 1);
    }
  }

  lemma {:induction false} LowerIsSame(s: string)
    requires forall i :: 0 <= i < |s| ==> !('A' <= s[i] <= 'Z')
    ensures AsciiLower(s) == s
  {
    if s != "" {
      LowerIsSame(s[1..]);
      assert s == [s[0]] + s[1..];
    }
  }
}
