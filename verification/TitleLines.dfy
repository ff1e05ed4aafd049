/** Which lines the lexical annotator takes for titles, by the words that stand in them. */
module TitleLines {
  import opened Text
  import opened Coordinates
  import opened Unicode
  import opened LexicalAnnotator

  /** Characters `a..b` of the line are a whole word: a longest run of word characters. */
  predicate IsLineWord(t: Tables, line: string, a: nat, b: nat) {
    && a < b <= |line|
    && (forall i :: a <= i < b ==> IsLineWordCharacter(t, line[i]))
    && (a == 0 || !IsLineWordCharacter(t, line[a - 1]))
    && (b == |line| || !IsLineWordCharacter(t, line[b]))
  }

  predicate IsCapitalWord(t: Tables, line: string, a: nat, b: nat) {
    IsLineWord(t, line, a, b) && t.uppercase(line[a])
  }

  predicate AreTwoCapitals(t: Tables, line: string, a: nat, b: nat, c: nat, d: nat) {
    IsCapitalWord(t, line, a, b) && IsCapitalWord(t, line, c, d) && a < c
  }

  ghost predicate HasTwoCapitals(t: Tables, line: string) {
    exists a: nat, b: nat, c: nat, d: nat :: AreTwoCapitals(t, line, a, b, c, d)
  }

  /** Every word that is not capitalized is a function word. */
  ghost predicate OthersAreFunctionWords(t: Tables, lexicon: Lexicon, line: string) {
    forall a: nat, b: nat :: IsLineWord(t, line, a, b) && !t.uppercase(line[a]) ==> lexicon(line[a..b]).Function?
  }

  // ----- Where the pieces of a split line stand -----

  /** The start of each piece of a split, the current one at `from` and the rest of the line at `at`. */
  function PieceStarts(t: Tables, rest: string, at: nat, from: nat): seq<nat>
    decreases |rest|
  {
    if rest == "" then [from]
    else if IsLineWordCharacter(t, rest[0]) then PieceStarts(t, rest[1..], at + 1, from)
    else [from] + PieceStarts(t, rest[1..], at + 1, at + 1)
  }

  /** The piece is what stands at its start, and a whole word unless it is empty. */
  predicate Stands(t: Tables, line: string, piece: string, start: nat) {
    && start + |piece| <= |line| && piece == line[start..start + |piece|]
    && (piece != "" ==> IsLineWord(t, line, start, start + |piece|))
  }

  predicate AllStand(t: Tables, line: string, pieces: seq<string>, starts: seq<nat>, from: nat) {
    && |pieces| == |starts| && |starts| > 0 && starts[0] == from
    && (forall i :: 0 <= i < |pieces| ==> Stands(t, line, pieces[i], starts[i]))
    && (forall i, j :: 0 <= i < j < |starts| ==> starts[i] < starts[j])
  }

  /** The line up to `k` is split, the unfinished piece starting at `from`. */
  predicate SplitAt(t: Tables, line: string, from: nat, k: nat) {
    && from <= k <= |line| && (forall i :: from <= i < k ==> IsLineWordCharacter(t, line[i]))
    && (from == 0 || !IsLineWordCharacter(t, line[from - 1]))
  }

  lemma FirstStands(t: Tables, line: string, from: nat, k: nat, pieces: seq<string>, starts: seq<nat>)
    requires SplitAt(t, line, from, k) && k < |line| && !IsLineWordCharacter(t, line[k])
    requires AllStand(t, line, pieces, starts, k + 1)
    ensures AllStand(t, line, [line[from..k]] + pieces, [from] + starts, from)
  {
    assert Stands(t, line, line[from..k], from);
    forall i, j | 0 <= i < j < |[from] + starts|
      ensures ([from] + starts)[i] < ([from] + starts)[j]
    {
      assert j > 1 ==> starts[0] < starts[j - 1];
    }
  }

  lemma {:induction false} PiecesStand(t: Tables, line: string, from: nat, k: nat)
    requires SplitAt(t, line, from, k)
    ensures AllStand(t, line, SplitWords(t, line[k..], line[from..k]), PieceStarts(t, line[k..], k, from), from)
    decreases |line| - k
  {
    if k < |line| {
      assert line[k..][1..] == line[k + 1..];
      if IsLineWordCharacter(t, line[k]) {
        assert line[from..k] + [line[k]] == line[from..k + 1];
        PiecesStand(t, line, from, k + 1);
      } else {
        assert line[k + 1..k + 1] == "";
        PiecesStand(t, line, k + 1, k + 1);
        FirstStands(t, line, from, k, SplitWords(t, line[k + 1..], ""), PieceStarts(t, line[k + 1..], k + 1, k + 1));
      }
    }
  }

  /** Piece `i` is the word at `a..b`. */
  predicate IsPiece(pieces: seq<string>, starts: seq<nat>, i: nat, a: nat, b: nat) {
    i < |pieces| == |starts| && starts[i] == a && a + |pieces[i]| == b
  }

  lemma AsManyStarts(t: Tables, line: string, from: nat, k: nat)
    requires SplitAt(t, line, from, k)
    ensures |SplitWords(t, line[k..], line[from..k])| == |PieceStarts(t, line[k..], k, from)|
  {
    PiecesStand(t, line, from, k);
  }

  /** Every whole word of the line is one of the pieces. */
  lemma {:induction false} WordIsAPiece(t: Tables, line: string, from: nat, k: nat, a: nat, b: nat) returns (i: nat)
    requires SplitAt(t, line, from, k) && from <= a && IsLineWord(t, line, a, b)
    ensures IsPiece(SplitWords(t, line[k..], line[from..k]), PieceStarts(t, line[k..], k, from), i, a, b)
    decreases |line| - k
  {
    AsManyStarts(t, line, from, k);
    if k == |line| {
      assert a == from && b == k;
      i := 0;
    } else {
      assert line[k..][1..] == line[k + 1..];
      if IsLineWordCharacter(t, line[k]) {
        assert line[from..k] + [line[k]] == line[from..k + 1];
        i := WordIsAPiece(t, line, from, k + 1, a, b);
      } else if a <= k {
        assert b <= k;
        assert a == from && b == k;
        i := 0;
      } else {
        assert line[k + 1..k + 1] == "";
        var j := WordIsAPiece(t, line, k + 1, k + 1, a, b);
        i := j + 1;
      }
    }
  }

  // ----- Counting -----

  lemma {:induction false} CapitalsCount(t: Tables, words: seq<string>)
    ensures Capitals(t, words) <= NonEmpty(words)
    ensures Capitals(t, words) >= 1 <==> exists i :: 0 <= i < |words| && IsCapitalized(t, words[i])
    ensures Capitals(t, words) >= 2
            <==> exists i, j :: 0 <= i < j < |words| && IsCapitalized(t, words[i]) && IsCapitalized(t, words[j])
    decreases |words|
  {
    if words != [] {
      var n := |words| - 1;
      CapitalsCount(t, words[..n]);
      assert forall i :: 0 <= i < n ==> words[..n][i] == words[i];
    }
  }

  lemma PieceIsCapital(t: Tables, line: string, piece: string, start: nat)
    requires Stands(t, line, piece, start)
    ensures IsCapitalized(t, piece) <==> IsCapitalWord(t, line, start, start + |piece|)
  {
  }

  ghost predicate HasTwoCapitalPieces(t: Tables, words: seq<string>) {
    exists i, j :: 0 <= i < j < |words| && IsCapitalized(t, words[i]) && IsCapitalized(t, words[j])
  }

  lemma TwoPieces(t: Tables, line: string, i: nat, j: nat)
    requires i < j < |SplitWords(t, line, "")|
    ensures var words, starts := SplitWords(t, line, ""), PieceStarts(t, line, 0, 0);
            |starts| == |words| && starts[i] < starts[j]
            && Stands(t, line, words[i], starts[i]) && Stands(t, line, words[j], starts[j])
  {
    assert line[0..] == line && line[0..0] == "";
    PiecesStand(t, line, 0, 0);
  }

  lemma CapitalPiecesAreWords(t: Tables, line: string)
    requires HasTwoCapitalPieces(t, SplitWords(t, line, ""))
    ensures HasTwoCapitals(t, line)
  {
    var words, starts := SplitWords(t, line, ""), PieceStarts(t, line, 0, 0);
    var i, j :| 0 <= i < j < |words| && IsCapitalized(t, words[i]) && IsCapitalized(t, words[j]);
    TwoPieces(t, line, i, j);
    PieceIsCapital(t, line, words[i], starts[i]);
    PieceIsCapital(t, line, words[j], starts[j]);
    assert AreTwoCapitals(t, line, starts[i], starts[i] + |words[i]|, starts[j], starts[j] + |words[j]|);
  }

  lemma CapitalWordsArePieces(t: Tables, line: string)
    requires HasTwoCapitals(t, line)
    ensures HasTwoCapitalPieces(t, SplitWords(t, line, ""))
  {
    var words := SplitWords(t, line, "");
    var a: nat, b: nat, c: nat, d: nat :| AreTwoCapitals(t, line, a, b, c, d);
    var i := CapitalPiece(t, line, a, b);
    var j := CapitalPiece(t, line, c, d);
    assert i != j;
  }

  lemma CapitalPiece(t: Tables, line: string, a: nat, b: nat) returns (i: nat)
    requires IsCapitalWord(t, line, a, b)
    ensures IsPiece(SplitWords(t, line, ""), PieceStarts(t, line, 0, 0), i, a, b)
    ensures IsCapitalized(t, SplitWords(t, line, "")[i])
  {
    assert line[0..] == line && line[0..0] == "";
    PiecesStand(t, line, 0, 0);
    i := WordIsAPiece(t, line, 0, 0, a, b);
    PieceIsCapital(t, line, SplitWords(t, line, "")[i], PieceStarts(t, line, 0, 0)[i]);
  }

  predicate IsOther(t: Tables, lexicon: Lexicon, word: string) {
    word != "" && !IsCapitalized(t, word) ==> lexicon(word).Function?
  }

  lemma OtherPiecesAreWords(t: Tables, lexicon: Lexicon, line: string, words: seq<string>, starts: seq<nat>)
    requires words == SplitWords(t, line, "") && starts == PieceStarts(t, line, 0, 0)
    ensures (forall i :: 0 <= i < |words| ==> IsOther(t, lexicon, words[i])) <==> OthersAreFunctionWords(t, lexicon, line)
  {
    assert line[0..] == line && line[0..0] == "";
    PiecesStand(t, line, 0, 0);
    if forall i :: 0 <= i < |words| ==> IsOther(t, lexicon, words[i]) {
      forall a: nat, b: nat | IsLineWord(t, line, a, b) && !t.uppercase(line[a])
        ensures lexicon(line[a..b]).Function?
      {
        var k := WordIsAPiece(t, line, 0, 0, a, b);
        assert Stands(t, line, words[k], starts[k]) && IsOther(t, lexicon, words[k]);
      }
    }
    if OthersAreFunctionWords(t, lexicon, line) {
      forall i | 0 <= i < |words|
        ensures IsOther(t, lexicon, words[i])
      {
        assert Stands(t, line, words[i], starts[i]);
      }
    }
  }

  /** The annotator's title test, on the words of the line. */
  lemma TitleCaseMeans(t: Tables, lexicon: Lexicon, line: string)
    ensures IsTitleCase(t, lexicon, line) <==> HasTwoCapitals(t, line) && OthersAreFunctionWords(t, lexicon, line)
  {
    var words, starts := SplitWords(t, line, ""), PieceStarts(t, line, 0, 0);
    CapitalsCount(t, words);
    if HasTwoCapitalPieces(t, words) {
      CapitalPiecesAreWords(t, line);
    }
    if HasTwoCapitals(t, line) {
      CapitalWordsArePieces(t, line);
    }
    OtherPiecesAreWords(t, lexicon, line, words, starts);
    assert (forall i :: 0 <= i < |words| ==> IsOther(t, lexicon, words[i]))
      <==> forall i :: 0 <= i < |words| && words[i] != "" && !IsCapitalized(t, words[i]) ==> lexicon(words[i]).Function?;
  }

  /** The line looked at is the text between the line breaks nearest to the word, on either side. */
  lemma LineAroundIsTheLine(source: string, b: nat) returns (from: nat, to: nat)
    requires IsBoundary(source, b)
    ensures from <= FloorIndex(source, b) <= to <= |source| && LineAround(source, b) == source[from..to]
    ensures from == 0 || IsNewline(source[from - 1])
    ensures to == |source| || IsNewline(source[to])
    ensures forall i :: from <= i < to ==> !IsNewline(source[i])
  {
    BoundaryBound(source, b);
    from, to := BackToNewline(source, FloorIndex(source, b)), OnToNewline(source, FloorIndex(source, b));
  }
}
