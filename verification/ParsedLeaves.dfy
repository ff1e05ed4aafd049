/** The leaves of a parse, read in order, are the text without the skipped whitespace. */
module ParsedLeaves {
  import opened Text
  import opened Characters
  import opened Syntax
  import opened Unicode
  import opened NumericScanner
  import opened Lexer
  import opened ProseParser
  import opened Classification
  import opened BuiltinAdapters

  // ----- The leaves of the tree are the leaves of the lexemes -----

  lemma {:induction false} LeavesConcat(text: string, a: seq<Lexeme>, b: seq<Lexeme>)
    ensures Leaves(text, a + b) == Leaves(text, a) + Leaves(text, b)
    decreases |b|
  {
    if b == [] {
      assert a + b == a;
    } else {
      var n := |b| - 1;
      assert (a + b)[..|a| + n] == a + b[..n];
      LeavesConcat(text, a, b[..n]);
    }
  }

  lemma {:induction false} JoinLast(groups: seq<seq<Lexeme>>)
    requires groups != []
    ensures Joined(groups) == Joined(groups[..|groups| - 1]) + groups[|groups| - 1]
    decreases |groups|
  {
    var n := |groups| - 1;
    if n > 0 {
      JoinLast(groups[1..]);
      assert groups[1..][..n - 1] == groups[..n][1..];
    }
  }

  lemma {:induction false} SentenceLeaves(text: string, groups: seq<seq<Lexeme>>)
    ensures LeavesOf(Sentences(text, groups)) == Leaves(text, Joined(groups))
    decreases |groups|
  {
    if groups != [] {
      var n := |groups| - 1;
      assert Sentences(text, groups)[..n] == Sentences(text, groups[..n]);
      SentenceLeaves(text, groups[..n]);
      JoinLast(groups);
      LeavesConcat(text, Joined(groups[..n]), groups[n]);
    }
  }

  /** Cutting the lexemes into sentences drops, repeats and moves no leaf. */
  lemma ParsedLeavesAreTheLexemes(t: Tables, text: string)
    ensures LeavesOf(ParseTree(t, text).root.sentences) == Leaves(text, Lex(t, text, 0))
  {
    var xs := Lex(t, text, 0);
    SegmentsPartition(text, xs);
    SentenceLeaves(text, Segments(text, xs));
  }

  // ----- Which leaf a character is in -----

  /** Scalar `k` lies inside the span. */
  predicate Holds(text: string, span: Span, k: nat)
    requires k < |text|
  {
    span.start <= ByteOffset(text, k) && ByteOffset(text, k + 1) <= span.end
  }

  /** Some byte of scalar `k` is in the span. */
  predicate Touches(text: string, span: Span, k: nat)
    requires k < |text|
  {
    span.start < ByteOffset(text, k + 1) && ByteOffset(text, k) < span.end
  }

  lemma {:induction false} CoveredAt(xs: seq<Lexeme>, k: nat)
    ensures CoveredBy(xs, k) <==> exists i :: 0 <= i < |xs| && xs[i].from <= k < xs[i].to
    decreases |xs|
  {
    if xs != [] {
      CoveredAt(xs[1..], k);
      if i :| 0 <= i < |xs[1..]| && xs[1..][i].from <= k < xs[1..][i].to {
        assert xs[i + 1] == xs[1..][i];
      }
      if i :| 0 <= i < |xs| && xs[i].from <= k < xs[i].to {
        assert i > 0 ==> xs[1..][i - 1] == xs[i];
      }
    }
  }

  /** A lexeme's span holds exactly the scalars of the lexeme, and touches no other. */
  lemma LeafHolds(text: string, x: Lexeme, k: nat)
    requires x.from < x.to <= |text| && k < |text|
    ensures Holds(text, Leaf(text, x).span, k) <==> x.from <= k < x.to
    ensures Touches(text, Leaf(text, x).span, k) <==> x.from <= k < x.to
  {
    ByteOffsetInjective(text, x.from, k);
    ByteOffsetInjective(text, x.from, k + 1);
    ByteOffsetInjective(text, k, x.to);
    ByteOffsetInjective(text, k + 1, x.to);
  }

  lemma {:induction false} LexemesDisjoint(xs: seq<Lexeme>, end: nat, i: nat, j: nat)
    requires Ordered(xs, 0, end) && i < j < |xs|
    ensures xs[i].to <= xs[j].from
    decreases j
  {
    if i < j - 1 {
      LexemesDisjoint(xs, end, i, j - 1);
      assert xs[j - 1].to <= xs[j].from;
    }
  }

  /** The leaves of a parse, as lexemes. */
  lemma ParsedLeafAt(t: Tables, text: string, i: nat)
    requires i < |Lex(t, text, 0)|
    ensures var leaves, x := LeavesOf(ParseTree(t, text).root.sentences), Lex(t, text, 0)[i];
            && |leaves| == |Lex(t, text, 0)| && leaves[i] == Leaf(text, x) && x.from < x.to <= |text|
  {
    ParsedLeavesAreTheLexemes(t, text);
    LeavesAt(text, Lex(t, text, 0), i);
    LexemesAreOrdered(t, text, 0);
  }

  /** A character that is not skipped whitespace lies inside one leaf, and no other leaf has a byte of it. */
  lemma EveryCharacterHasItsLeaf(t: Tables, text: string, k: nat) returns (i: nat)
    requires t.Valid() && k < |text| && !IsParserWhitespace(text[k])
    ensures var leaves := LeavesOf(ParseTree(t, text).root.sentences);
            && i < |leaves|
            && Holds(text, NodeSpan(leaves[i]), k)
            && forall j :: 0 <= j < |leaves| && j != i ==> !Touches(text, NodeSpan(leaves[j]), k)
  {
    var xs := Lex(t, text, 0);
    LexemesCoverTheText(t, text, 0, k);
    CoveredAt(xs, k);
    i :| 0 <= i < |xs| && xs[i].from <= k < xs[i].to;
    ParsedLeafAt(t, text, i);
    LeafHolds(text, xs[i], k);
    LexemesAreOrdered(t, text, 0);
    forall j | 0 <= j < |xs| && j != i
      ensures !Touches(text, NodeSpan(LeavesOf(ParseTree(t, text).root.sentences)[j]), k)
    {
      LexemesDisjoint(xs, |text|, if i < j then i else j, if i < j then j else i);
      ParsedLeafAt(t, text, j);
      LeafHolds(text, xs[j], k);
    }
  }

  /** No leaf has a byte of skipped whitespace. */
  lemma WhitespaceHasNoLeaf(t: Tables, text: string, k: nat, j: nat)
    requires t.Valid() && k < |text| && IsParserWhitespace(text[k])
    requires j < |LeavesOf(ParseTree(t, text).root.sentences)|
    ensures !Touches(text, NodeSpan(LeavesOf(ParseTree(t, text).root.sentences)[j]), k)
  {
    var xs := Lex(t, text, 0);
    ParsedLeavesAreTheLexemes(t, text);
    LexemesCoverTheText(t, text, 0, k);
    CoveredAt(xs, k);
    ParsedLeafAt(t, text, j);
    LeafHolds(text, xs[j], k);
  }

  // ----- Reading the leaves gives the text back -----

  /** The text without the characters the parser skips. */
  function Unskipped(s: string): string {
    if s == "" then "" else (if IsParserWhitespace(s[0]) then "" else [s[0]]) + Unskipped(s[1..])
  }

  /** The texts of the leaves, one after another. */
  function LeafTexts(source: string, leaves: seq<Node>): string {
    if leaves == [] then "" else SpanText(source, NodeSpan(leaves[0])) + LeafTexts(source, leaves[1..])
  }

  lemma {:induction false} UnskippedConcat(a: string, b: string)
    ensures Unskipped(a + b) == Unskipped(a) + Unskipped(b)
    decreases |a|
  {
    if a == "" {
      assert a + b == b;
    } else {
      assert (a + b)[1..] == a[1..] + b;
      UnskippedConcat(a[1..], b);
    }
  }

  lemma {:induction false} AllSkipped(s: string)
    requires forall i :: 0 <= i < |s| ==> IsParserWhitespace(s[i])
    ensures Unskipped(s) == ""
    decreases |s|
  {
    if s != "" {
      AllSkipped(s[1..]);
    }
  }

  lemma {:induction false} NoneSkipped(s: string)
    requires forall i :: 0 <= i < |s| ==> !IsParserWhitespace(s[i])
    ensures Unskipped(s) == s
    decreases |s|
  {
    if s != "" {
      NoneSkipped(s[1..]);
      assert s == [s[0]] + s[1..];
    }
  }

  lemma LeafText(text: string, x: Lexeme)
    requires x.from < x.to <= |text|
    ensures SpanText(text, NodeSpan(Leaf(text, x))) == text[x.from..x.to]
  {
    IndexOfOffset(text, x.from);
    IndexOfOffset(text, x.to);
    OffsetsIncrease(text, x.from, x.to);
    OffsetsIncrease(text, x.to, |text|);
  }

  lemma LeavesFirst(text: string, x: Lexeme, rest: seq<Lexeme>)
    ensures Leaves(text, [x] + rest) == [Leaf(text, x)] + Leaves(text, rest)
  {
    LeavesConcat(text, [x], rest);
    assert [x][..0] == [] && Leaves(text, [x]) == [Leaf(text, x)];
  }

  /** The gap before a lexeme is skipped, and the lexeme is not. */
  lemma UnskippedStep(text: string, at: nat, from: nat, to: nat)
    requires at <= from <= to <= |text|
    requires forall j :: at <= j < from ==> IsParserWhitespace(text[j])
    requires forall j :: from <= j < to ==> !IsParserWhitespace(text[j])
    ensures Unskipped(text[at..]) == text[from..to] + Unskipped(text[to..])
  {
    var gap, run := text[at..from], text[from..to];
    AllSkipped(gap);
    NoneSkipped(run);
    assert text[from..] == run + text[to..] && text[at..] == gap + text[from..];
    UnskippedConcat(gap, text[from..]);
    UnskippedConcat(run, text[to..]);
  }

  lemma {:induction false} LexemesSpellTheText(t: Tables, text: string, at: nat)
    requires t.Valid() && at <= |text|
    ensures LeafTexts(text, Leaves(text, Lex(t, text, at))) == Unskipped(text[at..])
    decreases |text| - at
  {
    var from := SkipTo(text, at);
    if from == |text| {
      UnskippedStep(text, at, from, from);
    } else {
      var x := LexemeAt(t, text, from);
      LexemeHasNoWhitespace(t, text, from);
      UnskippedStep(text, at, from, x.to);
      LexemesSpellTheText(t, text, x.to);
      LeavesFirst(text, x, Lex(t, text, x.to));
      LeafText(text, x);
    }
  }

  /** Reading the leaves of a parse in order gives the text without its skipped whitespace: nothing is lost or moved. */
  lemma LeavesSpellTheText(t: Tables, text: string)
    requires t.Valid()
    ensures LeafTexts(text, LeavesOf(ParseTree(t, text).root.sentences)) == Unskipped(text)
  {
    ParsedLeavesAreTheLexemes(t, text);
    LexemesSpellTheText(t, text, 0);
    assert text[0..] == text;
  }

  /** A sentence of a parse has leaves, and spans exactly from the first of them to the last. */
  lemma SentencesSpanTheirLeaves(t: Tables, text: string, i: nat)
    requires i < |ParseTree(t, text).root.sentences|
    ensures var node := ParseTree(t, text).root.sentences[i];
            && node.Sentence? && node.parts != []
            && node.span == Span(NodeSpan(node.parts[0]).start, NodeSpan(node.parts[|node.parts| - 1]).end)
  {
    var groups := Segments(text, Lex(t, text, 0));
    SegmentsPartition(text, Lex(t, text, 0));
    SentencesAt(text, groups, i);
    LeavesAt(text, groups[i], 0);
    LeavesAt(text, groups[i], |groups[i]| - 1);
  }

  // ----- Which leaves are words -----

  /** A lexeme becomes a word exactly when its text is a word or a numeral. */
  lemma LexemeKind(t: Tables, text: string, from: nat)
    requires t.Valid() && from < |text|
    ensures var x := LexemeAt(t, text, from);
            Leaf(text, x).Word? <==> IsWord(t, text[x.from..x.to]) || IsNumeral(t, text[x.from..x.to])
  {
    var x := LexemeAt(t, text, from);
    var rest, own := text[from..], text[x.from..x.to];
    assert rest[..x.to - from] == own && own[0] == rest[0];
    if x.kind == WordToken {
      MatchAccepts(t, rest);
    } else if x.isNumber {
      LexemeIsRecognised(t, text, from);
      NumeralIsItsOwnPrefix(t, own);
    }
  }

  lemma {:induction false} LexemeKinds(t: Tables, text: string, at: nat, i: nat)
    requires t.Valid() && at <= |text| && i < |Lex(t, text, at)|
    ensures var x := Lex(t, text, at)[i];
            x.from < x.to <= |text|
            && (Leaf(text, x).Word? <==> IsWord(t, text[x.from..x.to]) || IsNumeral(t, text[x.from..x.to]))
    decreases |text| - at
  {
    var from := SkipTo(text, at);
    LexemeKind(t, text, from);
    if i > 0 {
      LexemeKinds(t, text, LexemeAt(t, text, from).to, i - 1);
    }
  }

  /** A leaf of a parse is a word exactly when its own text is a word or a numeral; else it is punctuation. */
  lemma LeafKinds(t: Tables, text: string, i: nat)
    requires t.Valid() && i < |LeavesOf(ParseTree(t, text).root.sentences)|
    ensures var leaf := LeavesOf(ParseTree(t, text).root.sentences)[i];
            var own := SpanText(text, NodeSpan(leaf));
            && own != ""
            && (leaf.Word? <==> IsWord(t, own) || IsNumeral(t, own))
            && (leaf.Punct? <==> !IsWord(t, own) && !IsNumeral(t, own))
  {
    ParsedLeavesAreTheLexemes(t, text);
    ParsedLeafAt(t, text, i);
    LexemeKinds(t, text, 0, i);
    LeafText(text, Lex(t, text, 0)[i]);
  }

  /** Every numeral leaf of a parse is a word, and one the lexicon recognises as a number; no other leaf is. */
  lemma NumeralLeavesAreNumbers(t: Tables, text: string, i: nat)
    requires t.Valid() && i < |LeavesOf(ParseTree(t, text).root.sentences)|
    ensures var leaf := LeavesOf(ParseTree(t, text).root.sentences)[i];
            var own := SpanText(text, NodeSpan(leaf));
            IsNumeral(t, own) <==> leaf.Word? && IsNumber(t, own)
  {
    LeafKinds(t, text, i);
    NumeralIsItsOwnPrefix(t, SpanText(text, NodeSpan(LeavesOf(ParseTree(t, text).root.sentences)[i])));
  }
}
