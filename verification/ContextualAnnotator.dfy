/**
  The contextual open-class annotator: a left-to-right, in-place refinement of
  undifferentiated content tokens from their immediate neighbours.
 */
module ContextualAnnotator {
  import opened Text
  import opened Syntax
  import opened Classification

  function AsciiLower(s: string): (r: string)
    ensures |r| == |s|
  {
    if s == "" then ""
    else [if 'A' <= s[0] <= 'Z' then (s[0] as int + 32) as char else s[0]] + AsciiLower(s[1..])
  }

  // ----- The rules -----

  datatype ContextWord = ContextWord(text: string, pos: PosClass)

  type Context = Option<ContextWord>

  predicate LooksPluralSubject(word: string) {
    var n := AsciiLower(word);
    |n| > 1 && n[|n| - 1] == 's' && n[|n| - 2] != 's'
  }

  predicate IsNominalTrigger(word: ContextWord) {
    && (word.pos == Function(Article) || word.pos == Function(Determiner) || word.pos == Function(Preposition)
        || word.pos == Open(Adjective))
    && AsciiLower(word.text) != "to"
  }

  predicate IsVerbTrigger(word: ContextWord) {
    || AsciiLower(word.text) == "to"
    || word.pos == Function(Pronoun) || word.pos == Function(Auxiliary) || word.pos == Open(Noun)
    || word.pos == ProperNoun
    || (word.pos == Content && LooksPluralSubject(word.text))
  }

  predicate IsVerbContext(word: ContextWord) {
    word.pos == Open(Verb)
  }

  predicate IsNounishContext(word: ContextWord) {
    word.pos == Content || word.pos == Open(Noun) || word.pos == ProperNoun
  }

  /** The evidence a sense asks for, from the word before and the word after. */
  datatype Evidence = VerbTrigger | NominalTrigger | NominalTriggerThenNounish | VerbBefore | NounishAfter {

    predicate Holds(previous: Context, next: Context) {
      match this
      case VerbTrigger => previous.Some? && IsVerbTrigger(previous.value)
      case NominalTrigger => previous.Some? && IsNominalTrigger(previous.value)
      case NominalTriggerThenNounish =>
        previous.Some? && IsNominalTrigger(previous.value) && next.Some? && IsNounishContext(next.value)
      case VerbBefore => previous.Some? && IsVerbContext(previous.value)
      case NounishAfter => next.Some? && IsNounishContext(next.value)
    }
  }

  datatype Sense = Sense(kind: OpenClassKind, evidence: Evidence)

  /** The senses of an ambiguous word in order of precedence; no other word has any. */
  function Senses(word: string): seq<Sense> {
    if word == "book" || word == "record" then [Sense(Verb, VerbTrigger), Sense(Noun, NominalTrigger)]
    else if word == "lead" then
      [Sense(Verb, VerbTrigger), Sense(Adjective, NominalTriggerThenNounish), Sense(Noun, NominalTrigger)]
    else if word == "fast" then [Sense(Adverb, VerbBefore), Sense(Adjective, NounishAfter)]
    else []
  }

  function FirstSense(senses: seq<Sense>, previous: Context, next: Context): (kind: Option<OpenClassKind>)
    ensures kind.None? <==> forall s <- senses :: !s.evidence.Holds(previous, next)
  {
    if senses == [] then None
    else if senses[0].evidence.Holds(previous, next) then Some(senses[0].kind)
    else
      assert forall s <- senses :: s == senses[0] || s in senses[1..];
      FirstSense(senses[1..], previous, next)
  }

  function ContextualKind(word: string, previous: Context, next: Context): Option<OpenClassKind> {
    FirstSense(Senses(AsciiLower(word)), previous, next)
  }

  predicate IsPunctuation(token: Token) {
    token.pos == Punctuation || token.pos == Quote
  }

  /** The neighbour at `index`, unless there is none or it is punctuation. */
  function ContextAt(source: string, tokens: seq<Token>, index: int): Context {
    if !(0 <= index < |tokens|) || IsPunctuation(tokens[index]) then None
    else Some(ContextWord(SpanText(source, tokens[index].span), tokens[index].pos))
  }

  // ----- The rewrite -----

  function Refined(source: string, token: Token, previous: Context, next: Context): Token {
    if token.pos != Content then token
    else
      match ContextualKind(SpanText(source, token.span), previous, next)
      case None => token
      case Some(kind) => token.(pos := Open(kind))
  }

  /** The left-to-right fold over the first `n` tokens: refined neighbours to the left, original ones to the right. */
  function RefinedUpTo(source: string, tokens: seq<Token>, n: nat): (r: seq<Token>)
    requires n <= |tokens|
    ensures |r| == |tokens|
  {
    if n == 0 then tokens
    else
      var r := RefinedUpTo(source, tokens, n - 1);
      r[n - 1 := Refined(source, r[n - 1], ContextAt(source, r, n - 2), ContextAt(source, r, n))]
  }

  function RefinedAll(source: string, tokens: seq<Token>): (r: seq<Token>)
    ensures |r| == |tokens|
  {
    RefinedUpTo(source, tokens, |tokens|)
  }

  /** The annotator's loop, updating the token list in place. */
  method RefineInPlace(source: string, tokens: array<Token>)
    modifies tokens
    ensures tokens[..] == RefinedAll(source, old(tokens[..]))
  {
    for i := 0 to tokens.Length
      invariant tokens[..] == RefinedUpTo(source, old(tokens[..]), i)
    {
      ghost var r := tokens[..];
      if tokens[i].pos == Content {
        var kind := ContextualKind(SpanText(source, tokens[i].span),
                                   ContextAt(source, tokens[..], i - 1), ContextAt(source, tokens[..], i + 1));
        if kind.Some? {
          tokens[i] := tokens[i].(pos := Open(kind.value));
        }
      }
      assert tokens[..] == r[i := Refined(source, r[i], ContextAt(source, r, i - 1), ContextAt(source, r, i + 1))];
    }
  }

  // ----- What the rewrite does -----

  lemma {:induction false} Untouched(source: string, tokens: seq<Token>, n: nat, i: nat)
    requires n <= i < |tokens|
    ensures RefinedUpTo(source, tokens, n)[i] == tokens[i]
  {
    if n > 0 {
      Untouched(source, tokens, n - 1, i);
    }
  }

  lemma {:induction false} Settled(source: string, tokens: seq<Token>, i: nat, n: nat)
    requires i < n <= |tokens|
    ensures RefinedUpTo(source, tokens, n)[i] == RefinedUpTo(source, tokens, i + 1)[i]
  {
    if i + 1 < n {
      Settled(source, tokens, i, n - 1);
    }
  }

  /**
    The result without the loop: each token is refined from its final left
    neighbour and its original right neighbour, and that determines it.
   */
  lemma RefinedAt(source: string, tokens: seq<Token>, i: nat)
    requires i < |tokens|
    ensures var r := RefinedAll(source, tokens);
            r[i] == Refined(source, tokens[i], ContextAt(source, r, i - 1), ContextAt(source, tokens, i + 1))
  {
    var here, r := RefinedUpTo(source, tokens, i), RefinedAll(source, tokens);
    assert ContextAt(source, here, i - 1) == ContextAt(source, r, i - 1) by {
      if i > 0 {
        Settled(source, tokens, i - 1, i);
        Settled(source, tokens, i - 1, |tokens|);
      }
    }
    assert ContextAt(source, here, i + 1) == ContextAt(source, tokens, i + 1) by {
      if i + 1 < |tokens| {
        Untouched(source, tokens, i, i + 1);
      }
    }
    Untouched(source, tokens, i, i);
    Settled(source, tokens, i, |tokens|);
  }

  /** Only undifferentiated content words change, only to an open class, and no span moves. */
  lemma RewriteOnlyResolvesContent(source: string, tokens: seq<Token>, i: nat)
    requires i < |tokens|
    ensures var r := RefinedAll(source, tokens);
            && r[i].span == tokens[i].span
            && (r[i] != tokens[i] ==>
                  tokens[i].pos == Content && r[i].pos.Open? && Senses(AsciiLower(SpanText(source, tokens[i].span))) != [])
  {
    RefinedAt(source, tokens, i);
  }

  /** A sense that does not fire keeps not firing when the word after stops looking like a noun. */
  lemma LosingTheNounAfterFiresNothing(word: string, previous: Context, next: Context, next': Context)
    requires ContextualKind(word, previous, next).None?
    requires next'.Some? && IsNounishContext(next'.value) ==> next.Some? && IsNounishContext(next.value)
    ensures ContextualKind(word, previous, next').None?
  {
    var senses := Senses(AsciiLower(word));
    forall s <- senses
      ensures !s.evidence.Holds(previous, next')
    {
      assert !s.evidence.Holds(previous, next);
    }
  }

  /** Refining an already refined list changes nothing. */
  lemma {:induction false} RewriteIsIdempotent(source: string, tokens: seq<Token>, i: nat)
    requires i < |tokens|
    ensures var r := RefinedAll(source, tokens); RefinedAll(source, r)[i] == r[i]
  {
    var r := RefinedAll(source, tokens);
    RefinedAt(source, tokens, i);
    RefinedAt(source, r, i);
    if i > 0 {
      RewriteIsIdempotent(source, tokens, i - 1);
    }
    if r[i].pos == Content {
      if i + 1 < |tokens| {
        RewriteOnlyResolvesContent(source, tokens, i + 1);
      }
      LosingTheNounAfterFiresNothing(SpanText(source, r[i].span), ContextAt(source, r, i - 1),
                                     ContextAt(source, tokens, i + 1), ContextAt(source, r, i + 1));
    }
  }
}
