/**
  The prose lexer: maximal munch over its four token patterns and its skip set,
  one-character tokens for anything else, and numeric extension of those.
 */
module Lexer {
  import opened Text
  import opened Characters
  import opened Scanner
  import opened Unicode
  import opened NumericScanner

  datatype Kind = WordToken | SentenceEnd | QuoteToken | PunctToken | Unmatched

  /** Scalars `from..to`; `isNumber` marks an unmatched token extended by the numeric scanner. */
  datatype Lexeme = Lexeme(kind: Kind, from: nat, to: nat, isNumber: bool)

  const NO_JOINER: char -> bool := c => false

  // ----- The patterns -----

  predicate IsWord(t: Tables, s: string) {
    s != "" && t.letter(s[0]) && Joined(t.WordBody(), IsWordJoiner, s[1..])
  }

  /** The strings a pattern accepts. */
  predicate Accepts(t: Tables, kind: Kind, s: string) {
    match kind
    case WordToken => IsWord(t, s)
    case SentenceEnd => s != "" && All(IsTerminator, s)
    case QuoteToken => |s| == 1 && IsQuoteMark(s[0])
    case PunctToken => |s| == 1 && IsPunctMark(s[0])
    case Unmatched => false
  }

  predicate IsSkipped(s: string) {
    s != "" && All(IsParserWhitespace, s)
  }

  // ----- Matching -----

  /** The token at the start of `s`, which must not start with skipped whitespace. */
  function Match(t: Tables, s: string): (r: (Kind, nat))
    requires s != ""
    ensures 0 < r.1 <= |s|
  {
    if t.letter(s[0]) then (WordToken, 1 + Scan(t.WordBody(), IsWordJoiner, s[1..]))
    else if IsTerminator(s[0]) then (SentenceEnd, 1 + Scan(IsTerminator, NO_JOINER, s[1..]))
    else if IsQuoteMark(s[0]) then (QuoteToken, 1)
    else if IsPunctMark(s[0]) then (PunctToken, 1)
    else (Unmatched, 1)
  }

  lemma PrefixParts(s: string, m: nat)
    requires 0 < m <= |s|
    ensures s[..m][0] == s[0] && s[..m][1..] == s[1..][..m - 1]
  {
  }

  lemma RunIsLongest(body: char -> bool, s: string)
    ensures All(body, s[..Scan(body, NO_JOINER, s)])
    ensures forall m :: 0 <= m <= |s| && All(body, s[..m]) ==> m <= Scan(body, NO_JOINER, s)
  {
    ScanIsLongest(body, NO_JOINER, s);
  }

  lemma AllSplits(body: char -> bool, s: string)
    requires s != ""
    ensures All(body, s) <==> body(s[0]) && All(body, s[1..])
  {
    if body(s[0]) && All(body, s[1..]) {
      assert s == [s[0]] + s[1..];
    }
  }

  /** The matched pattern accepts its text. */
  lemma MatchAccepts(t: Tables, s: string)
    requires s != "" && Match(t, s).0 != Unmatched
    ensures Accepts(t, Match(t, s).0, s[..Match(t, s).1])
  {
    var n := Match(t, s).1;
    PrefixParts(s, n);
    AllSplits(IsTerminator, s[..n]);
    ScanIsLongest(t.WordBody(), IsWordJoiner, s[1..]);
    RunIsLongest(IsTerminator, s[1..]);
  }

  /** Maximal munch: neither the skip set nor any pattern accepts another or a longer prefix. */
  lemma MatchIsMaximalMunch(t: Tables, s: string, kind: Kind, m: nat)
    requires t.Valid() && s != "" && !IsParserWhitespace(s[0]) && 0 < m <= |s|
    ensures !IsSkipped(s[..m])
    ensures Accepts(t, kind, s[..m]) ==> Match(t, s).0 == kind && m <= Match(t, s).1
  {
    PrefixParts(s, m);
    if Accepts(t, kind, s[..m]) {
      match kind {
        case WordToken =>
          ScanIsLongest(t.WordBody(), IsWordJoiner, s[1..]);
        case SentenceEnd =>
          AllSplits(IsTerminator, s[..m]);
          RunIsLongest(IsTerminator, s[1..]);
        case _ =>
      }
    }
  }

  function SkipTo(text: string, at: nat): (next: nat)
    requires at <= |text|
    ensures at <= next <= |text|
    ensures forall j :: at <= j < next ==> IsParserWhitespace(text[j])
    ensures next < |text| ==> !IsParserWhitespace(text[next])
    decreases |text| - at
  {
    if at < |text| && IsParserWhitespace(text[at]) then SkipTo(text, at + 1) else at
  }

  /** Where an unmatched token ends: the whole numeral when one starts here, else its single character. */
  function ErrorEnd(t: Tables, text: string, from: nat): (r: (bool, nat))
    requires from < |text|
    ensures from < r.1 <= |text|
  {
    match NumericPrefix(t, text[from..])
    case None => (false, from + 1)
    case Some(n) => (true, from + n)
  }

  /** The lexeme starting at a character that is not skipped. */
  function LexemeAt(t: Tables, text: string, from: nat): (x: Lexeme)
    requires from < |text|
    ensures x.from == from < x.to <= |text|
  {
    var (kind, n) := Match(t, text[from..]);
    if kind == Unmatched then
      var (isNumber, to) := ErrorEnd(t, text, from);
      Lexeme(kind, from, to, isNumber)
    else Lexeme(kind, from, from + n, false)
  }

  function Lex(t: Tables, text: string, at: nat): seq<Lexeme>
    requires at <= |text|
    decreases |text| - at
  {
    var from := SkipTo(text, at);
    if from == |text| then []
    else
      var x := LexemeAt(t, text, from);
      [x] + Lex(t, text, x.to)
  }

  // ----- What the lexemes cover -----

  lemma MatchHasNoWhitespace(t: Tables, s: string)
    requires t.Valid() && s != "" && !IsParserWhitespace(s[0])
    ensures forall i :: 0 <= i < Match(t, s).1 ==> !IsParserWhitespace(s[i])
  {
    ScanIsLongestShape(t.WordBody(), IsWordJoiner, s[1..]);
    ScanIsLongestShape(IsTerminator, NO_JOINER, s[1..]);
    forall i | 0 <= i < Match(t, s).1
      ensures !IsParserWhitespace(s[i])
    {
      if i > 0 {
        if t.letter(s[0]) {
          assert Scanner.Fits(t.WordBody(), IsWordJoiner, s[1..], Match(t, s).1 - 1, i - 1);
        } else {
          assert Scanner.Fits(IsTerminator, NO_JOINER, s[1..], Match(t, s).1 - 1, i - 1);
        }
        assert s[1..][i - 1] == s[i];
      }
    }
  }

  lemma NumeralHasNoWhitespace(t: Tables, s: string)
    requires t.Valid() && NumericPrefix(t, s).Some?
    ensures forall i :: 0 <= i < NumericPrefix(t, s).value ==> !IsParserWhitespace(s[i])
  {
    ScanIsLongestShape(t.numeric, IsSeparator, s[1..]);
    forall i | 0 <= i < NumericPrefix(t, s).value
      ensures !IsParserWhitespace(s[i])
    {
      if i > 0 {
        assert Scanner.Fits(t.numeric, IsSeparator, s[1..], NumericPrefix(t, s).value - 1, i - 1);
        assert s[1..][i - 1] == s[i];
      }
    }
  }

  lemma LexemeHasNoWhitespace(t: Tables, text: string, from: nat)
    requires t.Valid() && from < |text| && !IsParserWhitespace(text[from])
    ensures forall j :: from <= j < LexemeAt(t, text, from).to ==> !IsParserWhitespace(text[j])
  {
    var s, x := text[from..], LexemeAt(t, text, from);
    MatchHasNoWhitespace(t, s);
    if x.isNumber {
      NumeralHasNoWhitespace(t, s);
    }
    forall j | from <= j < x.to
      ensures !IsParserWhitespace(text[j])
    {
      assert s[j - from] == text[j];
    }
  }

  predicate Ordered(lexemes: seq<Lexeme>, at: nat, end: nat) {
    && (forall i :: 0 <= i < |lexemes| ==> at <= lexemes[i].from < lexemes[i].to <= end)
    && (forall i :: 0 < i < |lexemes| ==> lexemes[i - 1].to <= lexemes[i].from)
  }

  /** Scalar `j` lies in one of the lexemes. */
  predicate CoveredBy(lexemes: seq<Lexeme>, j: nat) {
    lexemes != [] && (lexemes[0].from <= j < lexemes[0].to || CoveredBy(lexemes[1..], j))
  }

  lemma {:induction false} NotCoveredBefore(lexemes: seq<Lexeme>, at: nat, j: nat)
    requires j < at && forall i :: 0 <= i < |lexemes| ==> at <= lexemes[i].from
    ensures !CoveredBy(lexemes, j)
    decreases |lexemes|
  {
    if lexemes != [] {
      NotCoveredBefore(lexemes[1..], at, j);
    }
  }

  lemma {:induction false} LexemesAreOrdered(t: Tables, text: string, at: nat)
    requires at <= |text|
    ensures Ordered(Lex(t, text, at), at, |text|)
    decreases |text| - at
  {
    var from := SkipTo(text, at);
    if from < |text| {
      LexemesAreOrdered(t, text, LexemeAt(t, text, from).to);
    }
  }

  /** A character lies in some lexeme exactly when it is not skipped whitespace. */
  lemma {:induction false} LexemesCoverTheText(t: Tables, text: string, at: nat, j: nat)
    requires t.Valid() && at <= j < |text|
    ensures CoveredBy(Lex(t, text, at), j) <==> !IsParserWhitespace(text[j])
    decreases |text| - at
  {
    var from, all := SkipTo(text, at), Lex(t, text, at);
    if from < |text| {
      var x := LexemeAt(t, text, from);
      var rest := Lex(t, text, x.to);
      assert all[0] == x && all[1..] == rest;
      if j < x.to {
        LexemeHasNoWhitespace(t, text, from);
        LexemesAreOrdered(t, text, x.to);
        NotCoveredBefore(rest, x.to, j);
      } else {
        LexemesCoverTheText(t, text, x.to, j);
      }
    }
  }

  lemma LexemeIsRecognised(t: Tables, text: string, from: nat)
    requires t.Valid() && from < |text|
    ensures var x := LexemeAt(t, text, from);
            && (x.isNumber ==> IsNumber(t, text[x.from..x.to]))
            && (x.kind == WordToken ==> t.letter(text[x.from]) && !IsNumber(t, text[x.from..x.to]))
  {
    var x := LexemeAt(t, text, from);
    assert text[from..][..x.to - from] == text[from..x.to];
    if x.isNumber {
      NumericPrefixIsStable(t, text[from..]);
    }
  }

  /** Every lexeme built by numeric extension is a number, and no letter-initial word is. */
  lemma {:induction false} NumbersAreRecognised(t: Tables, text: string, at: nat, i: nat)
    requires t.Valid() && at <= |text| && i < |Lex(t, text, at)|
    ensures var x := Lex(t, text, at)[i];
            x.from < x.to <= |text|
            && (x.isNumber ==> IsNumber(t, text[x.from..x.to]))
            && (x.kind == WordToken ==> t.letter(text[x.from]) && !IsNumber(t, text[x.from..x.to]))
    decreases |text| - at
  {
    var from := SkipTo(text, at);
    LexemeIsRecognised(t, text, from);
    if i > 0 {
      NumbersAreRecognised(t, text, LexemeAt(t, text, from).to, i - 1);
    }
  }
}
