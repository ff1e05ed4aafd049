/**
  The sentence segmenter: a loop with a deferred flush, proved to build exactly
  the tree a declarative segmentation of the lexemes describes.
 */
module ProseParser {
  import opened Text
  import opened Characters
  import opened Syntax
  import opened Unicode
  import opened NumericScanner
  import opened Lexer

  // ----- The segmentation -----

  /** A quotation mark or closing bracket: what may trail a terminator. */
  predicate IsCloser(text: string, x: Lexeme) {
    x.kind == QuoteToken || (x.to == x.from + 1 <= |text| && IsClosingBracket(text[x.from]))
  }

  /** Lexeme `k` is a closer touching the lexeme before it. */
  predicate Trails(text: string, xs: seq<Lexeme>, k: nat)
    requires 0 < k < |xs|
  {
    IsCloser(text, xs[k]) && xs[k].from == xs[k - 1].to
  }

  function FirstTerminator(xs: seq<Lexeme>, k: nat): (r: nat)
    requires k <= |xs|
    ensures k <= r <= |xs|
    ensures forall j :: k <= j < r ==> xs[j].kind != SentenceEnd
    ensures r < |xs| ==> xs[r].kind == SentenceEnd
    decreases |xs| - k
  {
    if k == |xs| || xs[k].kind == SentenceEnd then k else FirstTerminator(xs, k + 1)
  }

  function TrailEnd(text: string, xs: seq<Lexeme>, k: nat): (r: nat)
    requires 0 < k <= |xs|
    ensures k <= r <= |xs|
    ensures forall j :: k <= j < r ==> Trails(text, xs, j)
    ensures r < |xs| ==> !Trails(text, xs, r)
    decreases |xs| - k
  {
    if k == |xs| || !Trails(text, xs, k) then k else TrailEnd(text, xs, k + 1)
  }

  /** How many lexemes the first sentence takes: through its terminator and the closers that trail it. */
  function SentenceLength(text: string, xs: seq<Lexeme>): (n: nat)
    requires xs != []
    ensures 0 < n <= |xs|
  {
    var end := FirstTerminator(xs, 0);
    if end == |xs| then end else TrailEnd(text, xs, end + 1)
  }

  function Segments(text: string, xs: seq<Lexeme>): seq<seq<Lexeme>>
    decreases |xs|
  {
    if xs == [] then []
    else
      var n := SentenceLength(text, xs);
      [xs[..n]] + Segments(text, xs[n..])
  }

  /** The byte span of scalars `from..to`. */
  function SpanOf(text: string, from: nat, to: nat): Span {
    Span(if from <= |text| then ByteOffset(text, from) else ByteLen(text),
         if to <= |text| then ByteOffset(text, to) else ByteLen(text))
  }

  function Leaf(text: string, x: Lexeme): Node {
    var span := SpanOf(text, x.from, x.to);
    if x.kind == WordToken || x.isNumber then Word(span) else Punct(span)
  }

  function Leaves(text: string, xs: seq<Lexeme>): (nodes: seq<Node>)
    ensures |nodes| == |xs|
  {
    if xs == [] then [] else Leaves(text, xs[..|xs| - 1]) + [Leaf(text, xs[|xs| - 1])]
  }

  /** A sentence spans its first leaf to its last. */
  function SentenceOf(text: string, group: seq<Lexeme>): Node {
    Sentence(if group == [] then Span(0, 0) else SpanOf(text, group[0].from, group[|group| - 1].to),
             Leaves(text, group))
  }

  function Sentences(text: string, groups: seq<seq<Lexeme>>): (nodes: seq<Node>)
    ensures |nodes| == |groups|
  {
    if groups == [] then []
    else Sentences(text, groups[..|groups| - 1]) + [SentenceOf(text, groups[|groups| - 1])]
  }

  function ParseTree(t: Tables, text: string): Tree {
    Tree(Document(Sentences(text, Segments(text, Lex(t, text, 0)))))
  }

  lemma AppendLeaf(text: string, current: seq<Lexeme>, x: Lexeme)
    ensures Leaves(text, current + [x]) == Leaves(text, current) + [Leaf(text, x)]
  {
    assert (current + [x])[..|current|] == current;
  }

  lemma AppendSentence(text: string, done: seq<seq<Lexeme>>, group: seq<Lexeme>)
    ensures Sentences(text, done + [group]) == Sentences(text, done) + [SentenceOf(text, group)]
  {
    assert (done + [group])[..|done|] == done;
  }

  // ----- One unfinished sentence at a time -----

  /** What the loop knows of the unfinished sentence: no terminator yet, or one followed only by trailing closers. */
  predicate Collected(text: string, current: seq<Lexeme>, pendingFlush: bool) {
    var end := FirstTerminator(current, 0);
    if pendingFlush then end < |current| && TrailEnd(text, current, end + 1) == |current|
    else end == |current|
  }

  /** Extending a sequence on the right does not disturb what its own lexemes look like. */
  lemma TrailsInPrefix(text: string, xs: seq<Lexeme>, more: seq<Lexeme>, from: nat)
    requires 0 < from <= |xs|
    ensures forall j :: from <= j < |xs| ==> (Trails(text, xs + more, j) <==> Trails(text, xs, j))
    ensures FirstTerminator(xs, 0) < |xs| ==> FirstTerminator(xs + more, 0) == FirstTerminator(xs, 0)
  {
    forall j | from <= j < |xs|
      ensures Trails(text, xs + more, j) <==> Trails(text, xs, j)
    {
      assert (xs + more)[j] == xs[j] && (xs + more)[j - 1] == xs[j - 1];
    }
    var end, whole := FirstTerminator(xs, 0), FirstTerminator(xs + more, 0);
    assert end < |xs| ==> (xs + more)[end] == xs[end];
    assert whole < end ==> (xs + more)[whole] == xs[whole];
  }

  lemma CollectedLength(text: string, current: seq<Lexeme>, rest: seq<Lexeme>)
    requires Collected(text, current, true)
    requires rest == [] || !Trails(text, current + rest, |current|)
    ensures current + rest != [] && SentenceLength(text, current + rest) == |current|
  {
    TrailsInPrefix(text, current, rest, FirstTerminator(current, 0) + 1);
  }

  /** Adding one lexeme to the unfinished sentence. */
  lemma Collect(text: string, current: seq<Lexeme>, pendingFlush: bool, x: Lexeme)
    requires Collected(text, current, pendingFlush)
    requires pendingFlush ==> Trails(text, current + [x], |current|)
    ensures Collected(text, current + [x], pendingFlush || x.kind == SentenceEnd)
  {
    var xs, end := current + [x], FirstTerminator(current, 0);
    if pendingFlush {
      TrailsInPrefix(text, current, [x], end + 1);
    } else {
      assert forall j :: 0 <= j < |current| ==> xs[j] == current[j] && current[j].kind != SentenceEnd;
      assert xs[|current|] == x;
    }
  }

  lemma FlushSegment(text: string, current: seq<Lexeme>, rest: seq<Lexeme>)
    requires current + rest != [] && SentenceLength(text, current + rest) == |current|
    ensures Segments(text, current + rest) == [current] + Segments(text, rest)
  {
    assert (current + rest)[..|current|] == current && (current + rest)[|current|..] == rest;
  }

  // ----- The loop -----

  /** Finished groups, and the unfinished one. */
  datatype Seen = Seen(done: seq<seq<Lexeme>>, current: seq<Lexeme>)

  /** The loop's variables: finished sentences, and the leaves and span of the unfinished one. */
  datatype Segmenter = Segmenter(sentences: seq<Node>, parts: seq<Node>, sent: Span, pendingFlush: bool)

  /** `rest` still has to be read; finishing it after what was seen gives the whole segmentation. */
  ghost predicate Stands(text: string, all: seq<Lexeme>, rest: seq<Lexeme>, seen: Seen, state: Segmenter) {
    && Collected(text, seen.current, state.pendingFlush)
    && Segments(text, all) == seen.done + Segments(text, seen.current + rest)
    && state.sentences == Sentences(text, seen.done)
    && state.parts == Leaves(text, seen.current)
    && (seen.current != [] ==>
          state.sent == SpanOf(text, seen.current[0].from, seen.current[|seen.current| - 1].to)
          && seen.current[|seen.current| - 1].to <= |text|)
  }

  lemma Regroup<T>(a: seq<T>, x: T, rest: seq<T>)
    ensures a + ([x] + rest) == a + [x] + rest
  {
  }

  /** The loop's byte test for a trailing closer, in terms of lexemes. */
  lemma TrailsByBytes(text: string, current: seq<Lexeme>, x: Lexeme, rest: seq<Lexeme>)
    requires current != [] && x.from <= |text| && current[|current| - 1].to <= |text|
    ensures |current| < |current + ([x] + rest)|
    ensures Trails(text, current + [x], |current|)
            <==> IsCloser(text, x) && ByteOffset(text, x.from) == ByteOffset(text, current[|current| - 1].to)
    ensures Trails(text, current + ([x] + rest), |current|) <==> Trails(text, current + [x], |current|)
  {
    ByteOffsetInjective(text, x.from, current[|current| - 1].to);
  }

  lemma StandsFlushed(text: string, all: seq<Lexeme>, unread: seq<Lexeme>, seen: Seen, state: Segmenter)
    requires Stands(text, all, unread, seen, state) && state.pendingFlush
    requires unread != [] && !Trails(text, seen.current + unread, |seen.current|)
    ensures Stands(text, all, unread, Seen(seen.done + [seen.current], []),
                   Segmenter(state.sentences + [Sentence(state.sent, state.parts)], [], state.sent, false))
  {
    CollectedLength(text, seen.current, unread);
    FlushSegment(text, seen.current, unread);
    Regroup(seen.done, seen.current, Segments(text, unread));
    AppendSentence(text, seen.done, seen.current);
    assert [] + unread == unread;
  }

  function Extended(text: string, state: Segmenter, x: Lexeme): Segmenter {
    var span := SpanOf(text, x.from, x.to);
    state.(parts := state.parts + [Leaf(text, x)],
           sent := Span(if state.parts == [] then span.start else state.sent.start, span.end),
           pendingFlush := state.pendingFlush || x.kind == SentenceEnd)
  }

  lemma StandsExtended(text: string, all: seq<Lexeme>, x: Lexeme, rest: seq<Lexeme>, seen: Seen, state: Segmenter)
    requires Stands(text, all, [x] + rest, seen, state) && x.from <= x.to <= |text|
    requires state.pendingFlush ==> IsCloser(text, x) && ByteOffset(text, x.from) == state.sent.end
    ensures Stands(text, all, rest, Seen(seen.done, seen.current + [x]), Extended(text, state, x))
  {
    if seen.current != [] {
      TrailsByBytes(text, seen.current, x, rest);
    }
    Collect(text, seen.current, state.pendingFlush, x);
    Regroup(seen.current, x, rest);
    AppendLeaf(text, seen.current, x);
  }

  lemma StandsAtEnd(text: string, all: seq<Lexeme>, seen: Seen, state: Segmenter)
    requires Stands(text, all, [], seen, state)
    ensures Sentences(text, Segments(text, all))
            == state.sentences + if state.parts == [] then [] else [Sentence(state.sent, state.parts)]
  {
    assert seen.current + [] == seen.current;
    if seen.current != [] {
      FlushSegment(text, seen.current, []);
      AppendSentence(text, seen.done, seen.current);
    } else {
      assert seen.done + [] == seen.done && state.sentences + [] == state.sentences;
    }
  }

  method ExtendNumericError(t: Tables, text: string, from: nat) returns (isNumber: bool, to: nat)
    requires from < |text|
    ensures (isNumber, to) == ErrorEnd(t, text, from)
  {
    var length := NumericPrefixLen(t, text[from..]);
    match length {
      case None =>
        return false, from + 1;
      case Some(bytes) =>
        IndexOfOffset(text[from..], NumericPrefix(t, text[from..]).value);
        return true, from + FloorIndex(text[from..], bytes);
    }
  }

  /** The next lexer result, with an unmatched numeric character extended to its whole numeral. */
  method NextLexeme(t: Tables, text: string, from: nat) returns (x: Lexeme)
    requires from < |text|
    ensures x == LexemeAt(t, text, from)
  {
    var (kind, length) := Match(t, text[from..]);
    var isNumber, to := false, from + length;
    if kind == Unmatched {
      isNumber, to := ExtendNumericError(t, text, from);
    }
    x := Lexeme(kind, from, to, isNumber);
  }

  /** Take a token into the unfinished sentence. */
  method Take(text: string, x: Lexeme, state: Segmenter) returns (state': Segmenter)
    requires x.from <= x.to <= |text| && !state.pendingFlush && (x.isNumber ==> x.kind == Unmatched)
    ensures state' == Extended(text, state, x)
  {
    var span := SpanOf(text, x.from, x.to);
    state' := state;
    if state'.parts == [] {
      state' := state'.(sent := span);
    }
    state' := state'.(sent := Span(state'.sent.start, span.end));
    match x.kind {
      case WordToken =>
        state' := state'.(parts := state'.parts + [Word(span)]);
      case SentenceEnd =>
        state' := state'.(parts := state'.parts + [Punct(span)], pendingFlush := true);
      case _ =>
        state' := state'.(parts := state'.parts + [if x.isNumber then Word(span) else Punct(span)]);
    }
  }

  lemma CloserIsPunct(t: Tables, text: string, from: nat)
    requires t.Valid() && from < |text| && IsCloser(text, LexemeAt(t, text, from))
    ensures Leaf(text, LexemeAt(t, text, from)).Punct?
  {
  }

  /** One round of the loop: absorb a trailing closer, or flush a finished sentence and take the token. */
  method Segment(text: string, x: Lexeme, state: Segmenter,
                 ghost all: seq<Lexeme>, ghost rest: seq<Lexeme>, ghost seen: Seen)
    returns (state': Segmenter, ghost seen': Seen)
    requires Stands(text, all, [x] + rest, seen, state) && x.from <= x.to <= |text|
    requires IsCloser(text, x) ==> Leaf(text, x).Punct?
    requires x.isNumber ==> x.kind == Unmatched
    ensures Stands(text, all, rest, seen', state')
  {
    if state.pendingFlush {
      var span := SpanOf(text, x.from, x.to);
      if IsCloser(text, x) && span.start == state.sent.end {
        StandsExtended(text, all, x, rest, seen, state);
        state' := Segmenter(state.sentences, state.parts + [Punct(span)], Span(state.sent.start, span.end), true);
        assert state' == Extended(text, state, x);
        return state', Seen(seen.done, seen.current + [x]);
      }
      TrailsByBytes(text, seen.current, x, rest);
      StandsFlushed(text, all, [x] + rest, seen, state);
      state' := Segmenter(state.sentences + [Sentence(state.sent, state.parts)], [], state.sent, false);
      seen' := Seen(seen.done + [seen.current], []);
    } else {
      state', seen' := state, seen;
    }
    StandsExtended(text, all, x, rest, seen', state');
    seen' := Seen(seen'.done, seen'.current + [x]);
    state' := Take(text, x, state');
  }

  method Parse(t: Tables, text: string) returns (tree: Tree)
    requires t.Valid()
    ensures tree == ParseTree(t, text)
  {
    var state := Segmenter([], [], Span(0, 0), false);
    var at := 0;
    ghost var all, seen := Lex(t, text, 0), Seen([], []);
    assert [] + all == all;
    while SkipTo(text, at) < |text|
      invariant at <= |text| && Stands(text, all, Lex(t, text, at), seen, state)
      decreases |text| - at
    {
      var x := NextLexeme(t, text, SkipTo(text, at));
      if IsCloser(text, x) {
        CloserIsPunct(t, text, x.from);
      }
      state, seen := Segment(text, x, state, all, Lex(t, text, x.to), seen);
      at := x.to;
    }
    StandsAtEnd(text, all, seen, state);
    if state.parts != [] {
      return Tree(Document(state.sentences + [Sentence(state.sent, state.parts)]));
    }
    assert state.sentences + [] == state.sentences;
    return Tree(Document(state.sentences));
  }

  // ----- What the segmentation guarantees -----

  function Joined(groups: seq<seq<Lexeme>>): seq<Lexeme> {
    if groups == [] then [] else groups[0] + Joined(groups[1..])
  }

  /** Sentences partition the lexemes in order: nothing is dropped, repeated or moved. */
  lemma {:induction false} SegmentsPartition(text: string, xs: seq<Lexeme>)
    ensures Joined(Segments(text, xs)) == xs
    ensures NoneEmpty(Segments(text, xs))
    decreases |xs|
  {
    if xs != [] {
      var n := SentenceLength(text, xs);
      SegmentsPartition(text, xs[n..]);
      JoinFirst(xs[..n], Segments(text, xs[n..]));
    }
  }

  predicate NoneEmpty(groups: seq<seq<Lexeme>>) {
    forall i :: 0 <= i < |groups| ==> groups[i] != []
  }

  lemma JoinFirst(group: seq<Lexeme>, groups: seq<seq<Lexeme>>)
    requires group != [] && NoneEmpty(groups)
    ensures Joined([group] + groups) == group + Joined(groups) && NoneEmpty([group] + groups)
  {
    assert ([group] + groups)[1..] == groups;
  }

  /** The first sentence of several is non-terminators, one terminator, then exactly the run of touching closers. */
  lemma FirstSegmentShape(text: string, xs: seq<Lexeme>, n: nat)
    requires xs != [] && n == SentenceLength(text, xs) < |xs|
    ensures Collected(text, xs[..n], true) && !Trails(text, xs, n)
  {
    var end := FirstTerminator(xs, 0);
    assert xs[..n] + xs[n..] == xs;
    if end < |xs| {
      assert forall j :: 0 <= j < n ==> xs[..n][j] == xs[j];
      assert FirstTerminator(xs[..n], 0) == end;
      TrailsInPrefix(text, xs[..n], xs[n..], end + 1);
    }
  }

  /**
    Every sentence but the last is a run of non-terminators, one terminator, and
    the closers touching it; the token after it is not such a closer.
   */
  lemma {:induction false} SentenceShape(text: string, xs: seq<Lexeme>, i: nat)
    requires i + 1 < |Segments(text, xs)|
    ensures var group, next := Segments(text, xs)[i], Segments(text, xs)[i + 1];
            next != [] && Collected(text, group, true) && !Trails(text, group + next, |group|)
    decreases |xs|
  {
    var n := SentenceLength(text, xs);
    var rest := xs[n..];
    if i > 0 {
      SentenceShape(text, rest, i - 1);
    } else {
      FirstSegmentShape(text, xs, n);
      var group, next := xs[..n], rest[..SentenceLength(text, rest)];
      assert (group + next)[n] == xs[n] && (group + next)[n - 1] == xs[n - 1];
    }
  }
}
