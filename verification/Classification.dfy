/** The validator that every parser/annotator pair must pass before anyone uses its spans. */
module Classification {
  import opened Text
  import opened Syntax

  /** The part of the classification an error points at. */
  datatype Subject =
    | Root
    | SentenceAt(sentence: nat)
    | PartAt(sentence: nat, part: nat)
    | TokenAt(token: nat)
    | Tokens

  datatype Fault =
    | UnexpectedNodeKind
    | ReversedSpan(span: Span)
    | SpanOutOfBounds(end: nat, length: nat)
    | SpanNotOnCharBoundary(offset: nat)
    | UnsortedSpan(previousStart: nat, start: nat)
    | OverlappingSpan(previousEnd: nat, start: nat)
    | ChildSpanOutsideParent(parent: Span, child: Span)
    | TreeTokenCountMismatch(treeLeaves: nat, tokens: nat)
    | TreeTokenSpanMismatch(treeSpan: Span, tokenSpan: Span)

  datatype Error = Error(at: Subject, fault: Fault)

  // ----- What a usable classification is -----

  predicate ValidSpan(source: string, span: Span) {
    span.start <= span.end <= ByteLen(source) && IsBoundary(source, span.start) && IsBoundary(source, span.end)
  }

  /** The text a span covers, or nothing when the span does not fit the source. */
  function SpanText(source: string, span: Span): string {
    if ValidSpan(source, span) then Slice(source, span.start, span.end) else ""
  }

  predicate InOrder(spans: seq<Span>) {
    forall i :: 0 < i < |spans| ==> spans[i - 1].end <= spans[i].start
  }

  predicate IsLeaf(node: Node) {
    node.Word? || node.Punct?
  }

  function NodeSpan(node: Node): Span {
    match node
    case Document(_) => Span(0, 0)
    case Sentence(span, _) => span
    case Word(span) => span
    case Punct(span) => span
  }

  function Spans(nodes: seq<Node>): (spans: seq<Span>)
    ensures |spans| == |nodes|
    ensures forall i :: 0 <= i < |nodes| ==> spans[i] == NodeSpan(nodes[i])
  {
    seq(|nodes|, i requires 0 <= i < |nodes| => NodeSpan(nodes[i]))
  }

  predicate SentenceOk(source: string, node: Node) {
    && node.Sentence?
    && ValidSpan(source, node.span)
    && (forall j :: 0 <= j < |node.parts| ==>
                      && IsLeaf(node.parts[j])
                      && ValidSpan(source, node.parts[j].span)
                      && node.span.start <= node.parts[j].span.start
                      && node.parts[j].span.end <= node.span.end)
    && InOrder(Spans(node.parts))
  }

  /** Sentences of leaves, on character boundaries, in order, without overlap, each leaf inside its sentence. */
  predicate TreeOk(source: string, tree: Tree) {
    && tree.root.Document?
    && (forall i :: 0 <= i < |tree.root.sentences| ==> SentenceOk(source, tree.root.sentences[i]))
    && InOrder(Spans(tree.root.sentences))
  }

  /** Every leaf of the given sentences, in order. */
  function LeavesOf(sentences: seq<Node>): seq<Node> {
    if sentences == [] then []
    else
      var last := sentences[|sentences| - 1];
      LeavesOf(sentences[..|sentences| - 1]) + if last.Sentence? then last.parts else []
  }

  function TokenSpans(tokens: seq<Token>): (spans: seq<Span>)
    ensures |spans| == |tokens|
    ensures forall i :: 0 <= i < |tokens| ==> spans[i] == tokens[i].span
  {
    seq(|tokens|, i requires 0 <= i < |tokens| => tokens[i].span)
  }

  /** One token per leaf, covering it exactly. */
  predicate OneToOne(tree: Tree, tokens: seq<Token>) {
    tree.root.Document? && TokenSpans(tokens) == Spans(LeavesOf(tree.root.sentences))
  }

  // ----- Leaves of a well-formed tree are ordered across sentences -----

  lemma SpansConcat(a: seq<Node>, b: seq<Node>)
    ensures Spans(a + b) == Spans(a) + Spans(b)
  {
  }

  predicate AllValid(source: string, spans: seq<Span>) {
    forall k :: 0 <= k < |spans| ==> ValidSpan(source, spans[k])
  }

  predicate Inside(spans: seq<Span>, from: nat, to: nat) {
    forall k :: 0 <= k < |spans| ==> from <= spans[k].start && spans[k].end <= to
  }

  lemma AppendSpans(source: string, a: seq<Span>, b: seq<Span>, from: nat, edge: nat, to: nat)
    requires InOrder(a) && InOrder(b) && AllValid(source, a) && AllValid(source, b)
    requires Inside(a, 0, from) && Inside(b, edge, to) && from <= edge <= to
    ensures InOrder(a + b) && AllValid(source, a + b) && Inside(a + b, 0, to)
  {
  }

  lemma PartSpans(source: string, node: Node)
    requires SentenceOk(source, node)
    ensures var parts := Spans(node.parts);
            InOrder(parts) && AllValid(source, parts) && Inside(parts, node.span.start, node.span.end)
  {
  }

  lemma TreePrefix(source: string, sentences: seq<Node>, n: nat)
    requires n <= |sentences|
    ensures TreeOk(source, Tree(Document(sentences))) ==>
              && TreeOk(source, Tree(Document(sentences[..n])))
              && (0 < n < |sentences| ==> NodeSpan(sentences[n - 1]).end <= NodeSpan(sentences[n]).start)
  {
    assert forall i :: 0 <= i < n ==> sentences[..n][i] == sentences[i] && Spans(sentences[..n])[i] == Spans(sentences)[i];
    assert TreeOk(source, Tree(Document(sentences))) && 0 < n < |sentences| ==>
        Spans(sentences)[n - 1].end <= Spans(sentences)[n].start;
  }

  /** Leaves are well placed and in order across sentences, and none ends past the last sentence. */
  lemma {:induction false} LeavesAreOrdered(source: string, sentences: seq<Node>)
    requires TreeOk(source, Tree(Document(sentences)))
    ensures var leaves := Spans(LeavesOf(sentences));
            && InOrder(leaves)
            && AllValid(source, leaves)
            && Inside(leaves, 0, if sentences == [] then 0 else NodeSpan(sentences[|sentences| - 1]).end)
  {
    if sentences != [] {
      var n := |sentences| - 1;
      var before, last := sentences[..n], sentences[n];
      TreePrefix(source, sentences, n);
      LeavesAreOrdered(source, before);
      PartSpans(source, last);
      SpansConcat(LeavesOf(before), last.parts);
      assert n > 0 ==> before[n - 1] == sentences[n - 1];
      AppendSpans(source, Spans(LeavesOf(before)), Spans(last.parts),
                  if n == 0 then 0 else NodeSpan(sentences[n - 1]).end, last.span.start, last.span.end);
    }
  }

  // ----- The validator -----

  function SpanError(source: string, at: Subject, span: Span): (e: Option<Error>)
    ensures e.None? <==> ValidSpan(source, span)
    ensures e.Some? ==> e.value.at == at
  {
    if span.start > span.end then Some(Error(at, ReversedSpan(span)))
    else if span.end > ByteLen(source) then Some(Error(at, SpanOutOfBounds(span.end, ByteLen(source))))
    else if !IsBoundary(source, span.start) then Some(Error(at, SpanNotOnCharBoundary(span.start)))
    else if !IsBoundary(source, span.end) then Some(Error(at, SpanNotOnCharBoundary(span.end)))
    else None
  }

  function LayoutError(at: Subject, previous: Span, current: Span): (e: Option<Error>)
    requires previous.start <= previous.end
    ensures e.None? <==> previous.end <= current.start
    ensures e.Some? ==> e.value.at == at
  {
    if current.start < previous.start then Some(Error(at, UnsortedSpan(previous.start, current.start)))
    else if current.start < previous.end then Some(Error(at, OverlappingSpan(previous.end, current.start)))
    else None
  }

  /** The span is placed well and starts no earlier than the one before it ends. */
  predicate Placed(source: string, spans: seq<Span>, k: nat)
    requires k < |spans|
  {
    ValidSpan(source, spans[k]) && (k > 0 ==> spans[k - 1].end <= spans[k].start)
  }

  /** A fault that span `k` of the list really has. */
  predicate PlaceFault(source: string, spans: seq<Span>, k: nat, fault: Fault)
    requires k < |spans|
  {
    var span := spans[k];
    match fault
    case ReversedSpan(reversed) => reversed == span && span.start > span.end
    case SpanOutOfBounds(end, length) => end == span.end > length == ByteLen(source)
    case SpanNotOnCharBoundary(offset) => (offset == span.start || offset == span.end) && !IsBoundary(source, offset)
    case UnsortedSpan(previousStart, start) => k > 0 && spans[k - 1].start == previousStart > start == span.start
    case OverlappingSpan(previousEnd, start) => k > 0 && spans[k - 1].end == previousEnd > start == span.start
    case _ => false
  }

  /** One item of a list: its span, then its layout after the previous item. */
  function PlaceError(source: string, at: Subject, spans: seq<Span>, k: nat): (e: Option<Error>)
    requires k < |spans| && (k > 0 ==> ValidSpan(source, spans[k - 1]))
    ensures e.None? <==> Placed(source, spans, k)
    ensures e.Some? ==> e.value.at == at && PlaceFault(source, spans, k, e.value.fault)
  {
    var error := SpanError(source, at, spans[k]);
    if error.Some? then error
    else if k > 0 then LayoutError(at, spans[k - 1], spans[k])
    else None
  }

  lemma SentenceAppend(source: string, span: Span, before: seq<Node>, part: Node)
    requires SentenceOk(source, Sentence(span, before))
    ensures SentenceOk(source, Sentence(span, before + [part]))
            <==> && IsLeaf(part) && ValidSpan(source, part.span)
                 && (before != [] ==> NodeSpan(before[|before| - 1]).end <= part.span.start)
                 && span.start <= part.span.start && part.span.end <= span.end
  {
    var next := before + [part];
    SpansConcat(before, [part]);
    assert next[|before|] == part && Spans(next)[|before|] == NodeSpan(part);
    assert before != [] ==> Spans(next)[|before| - 1] == NodeSpan(before[|before| - 1]);
  }

  lemma SentenceStep(source: string, span: Span, parts: seq<Node>, j: nat)
    requires j < |parts| && SentenceOk(source, Sentence(span, parts[..j]))
    ensures j > 0 ==> IsLeaf(parts[j - 1]) && ValidSpan(source, parts[j - 1].span)
    ensures SentenceOk(source, Sentence(span, parts[..j + 1]))
            <==> && IsLeaf(parts[j])
                 && Placed(source, Spans(parts), j)
                 && span.start <= parts[j].span.start
                 && parts[j].span.end <= span.end
  {
    SentenceAppend(source, span, parts[..j], parts[j]);
    assert parts[..j + 1] == parts[..j] + [parts[j]];
    assert j > 0 ==> parts[..j][j - 1] == parts[j - 1];
  }

  lemma {:induction false} SentencePrefix(source: string, span: Span, parts: seq<Node>, j: nat)
    requires j <= |parts|
    ensures SentenceOk(source, Sentence(span, parts)) ==> SentenceOk(source, Sentence(span, parts[..j]))
  {
    assert forall i :: 0 <= i < j ==> parts[..j][i] == parts[i] && Spans(parts[..j])[i] == Spans(parts)[i];
  }

  /** Part `j` is the first that breaks the sentence, and has the fault. */
  predicate BlamesPart(source: string, span: Span, parts: seq<Node>, j: nat, fault: Fault) {
    && j < |parts|
    && SentenceOk(source, Sentence(span, parts[..j]))
    && !SentenceOk(source, Sentence(span, parts[..j + 1]))
    && match fault
       case UnexpectedNodeKind => !IsLeaf(parts[j])
       case ChildSpanOutsideParent(parent, child) =>
         parent == span && child == NodeSpan(parts[j]) && (child.start < parent.start || child.end > parent.end)
       case _ => IsLeaf(parts[j]) && PlaceFault(source, Spans(parts), j, fault)
  }

  method ValidateParts(source: string, sentence: nat, span: Span, parts: seq<Node>) returns (e: Option<Error>)
    requires ValidSpan(source, span)
    ensures e.None? <==> SentenceOk(source, Sentence(span, parts))
    ensures e.Some? ==> e.value.at.PartAt? && e.value.at.sentence == sentence
                        && BlamesPart(source, span, parts, e.value.at.part, e.value.fault)
  {
    for j := 0 to |parts|
      invariant SentenceOk(source, Sentence(span, parts[..j]))
    {
      var at, part := PartAt(sentence, j), parts[j];
      SentenceStep(source, span, parts, j);
      e := None;
      if !IsLeaf(part) {
        e := Some(Error(at, UnexpectedNodeKind));
      } else {
        e := PlaceError(source, at, Spans(parts), j);
        if e.None? && (part.span.start < span.start || part.span.end > span.end) {
          e := Some(Error(at, ChildSpanOutsideParent(span, part.span)));
        }
      }
      if e.Some? {
        SentencePrefix(source, span, parts, j + 1);
        return;
      }
    }
    assert parts[..|parts|] == parts;
    return None;
  }

  /** The error names the first sentence that breaks the tree, or the first part that breaks that sentence, and its fault. */
  predicate Blames(source: string, sentences: seq<Node>, e: Error) {
    match e.at
    case SentenceAt(i) =>
      && FirstBroken(source, sentences, i)
      && if e.fault.UnexpectedNodeKind? then !sentences[i].Sentence? else PlaceFault(source, Spans(sentences), i, e.fault)
    case PartAt(i, j) =>
      && FirstBroken(source, sentences, i) && sentences[i].Sentence?
      && BlamesPart(source, sentences[i].span, sentences[i].parts, j, e.fault)
    case _ => false
  }

  predicate FirstBroken(source: string, sentences: seq<Node>, i: nat) {
    && i < |sentences|
    && TreeOk(source, Tree(Document(sentences[..i])))
    && !TreeOk(source, Tree(Document(sentences[..i + 1])))
  }

  method ValidateTree(source: string, sentences: seq<Node>) returns (e: Option<Error>)
    ensures e.None? <==> TreeOk(source, Tree(Document(sentences)))
    ensures e.Some? ==> Blames(source, sentences, e.value)
  {
    for i := 0 to |sentences|
      invariant TreeOk(source, Tree(Document(sentences[..i])))
    {
      var at, sentence := SentenceAt(i), sentences[i];
      TreeStep(source, sentences, i);
      e := None;
      if !sentence.Sentence? {
        e := Some(Error(at, UnexpectedNodeKind));
      } else {
        e := PlaceError(source, at, Spans(sentences), i);
        if e.None? {
          assert sentence == Sentence(sentence.span, sentence.parts);
          e := ValidateParts(source, i, sentence.span, sentence.parts);
        }
      }
      if e.Some? {
        assert FirstBroken(source, sentences, i);
        TreePrefix(source, sentences, i + 1);
        return;
      }
    }
    assert sentences[..|sentences|] == sentences;
    return None;
  }

  lemma TreeStep(source: string, sentences: seq<Node>, i: nat)
    requires i < |sentences| && TreeOk(source, Tree(Document(sentences[..i])))
    ensures i > 0 ==> ValidSpan(source, Spans(sentences)[i - 1])
    ensures TreeOk(source, Tree(Document(sentences[..i + 1])))
            <==> SentenceOk(source, sentences[i]) && Placed(source, Spans(sentences), i)
  {
    var before, next := sentences[..i], sentences[..i + 1];
    assert next == before + [sentences[i]];
    SpansConcat(before, [sentences[i]]);
    assert i > 0 ==> before[i - 1] == sentences[i - 1] == next[i - 1] && Spans(next)[i - 1] == Spans(sentences)[i - 1];
    assert i > 0 ==> SentenceOk(source, before[i - 1]);
    assert next[i] == sentences[i] && Spans(next)[i] == Spans(sentences)[i];
    assert TreeOk(source, Tree(Document(next))) ==> i > 0 ==> Spans(next)[i - 1].end <= Spans(next)[i].start;
  }

  lemma AllPlaced(source: string, spans: seq<Span>)
    ensures (forall i :: 0 <= i < |spans| ==> Placed(source, spans, i)) <==> AllValid(source, spans) && InOrder(spans)
  {
    if forall i :: 0 <= i < |spans| ==> Placed(source, spans, i) {
      forall i | 0 <= i < |spans|
        ensures ValidSpan(source, spans[i])
      {
        assert Placed(source, spans, i);
      }
      forall i | 0 < i < |spans|
        ensures spans[i - 1].end <= spans[i].start
      {
        assert Placed(source, spans, i);
      }
    }
  }

  /** The error names the first token out of place, and its fault. */
  predicate BlamesToken(source: string, tokens: seq<Token>, e: Error) {
    && e.at.TokenAt? && e.at.token < |tokens|
    && (forall i :: 0 <= i < e.at.token ==> Placed(source, TokenSpans(tokens), i))
    && !Placed(source, TokenSpans(tokens), e.at.token)
    && PlaceFault(source, TokenSpans(tokens), e.at.token, e.fault)
  }

  method ValidateTokens(source: string, tokens: seq<Token>) returns (e: Option<Error>)
    ensures e.None? <==> AllValid(source, TokenSpans(tokens)) && InOrder(TokenSpans(tokens))
    ensures e.Some? ==> BlamesToken(source, tokens, e.value)
  {
    var spans := TokenSpans(tokens);
    AllPlaced(source, spans);
    for k := 0 to |tokens|
      invariant forall i :: 0 <= i < k ==> Placed(source, spans, i)
    {
      assert k > 0 ==> Placed(source, spans, k - 1);
      e := PlaceError(source, TokenAt(k), spans, k);
      if e.Some? {
        return;
      }
    }
    return None;
  }

  /** The error gives the two counts when they differ, else the first leaf and token with different spans. */
  predicate BlamesMatch(leaves: seq<Node>, tokens: seq<Token>, e: Error) {
    if |leaves| != |tokens| then e == Error(Tokens, TreeTokenCountMismatch(|leaves|, |tokens|))
    else
      && e.at.TokenAt? && e.at.token < |tokens|
      && TokenSpans(tokens)[..e.at.token] == Spans(leaves)[..e.at.token]
      && tokens[e.at.token].span != NodeSpan(leaves[e.at.token])
      && e.fault == TreeTokenSpanMismatch(NodeSpan(leaves[e.at.token]), tokens[e.at.token].span)
  }

  method MatchLeaves(leaves: seq<Node>, tokens: seq<Token>) returns (e: Option<Error>)
    ensures e.None? <==> TokenSpans(tokens) == Spans(leaves)
    ensures e.Some? ==> BlamesMatch(leaves, tokens, e.value)
  {
    if |leaves| != |tokens| {
      return Some(Error(Tokens, TreeTokenCountMismatch(|leaves|, |tokens|)));
    }
    for k := 0 to |leaves|
      invariant forall i :: 0 <= i < k ==> TokenSpans(tokens)[i] == Spans(leaves)[i]
    {
      if NodeSpan(leaves[k]) != tokens[k].span {
        assert TokenSpans(tokens)[k] != Spans(leaves)[k];
        return Some(Error(TokenAt(k), TreeTokenSpanMismatch(NodeSpan(leaves[k]), tokens[k].span)));
      }
    }
    return None;
  }

  /** The first fault in tree, token, then correspondence order. */
  predicate IsFirstFault(source: string, tree: Tree, tokens: seq<Token>, e: Error) {
    if !tree.root.Document? then e == Error(Root, UnexpectedNodeKind)
    else if !TreeOk(source, tree) then Blames(source, tree.root.sentences, e)
    else if !(AllValid(source, TokenSpans(tokens)) && InOrder(TokenSpans(tokens))) then BlamesToken(source, tokens, e)
    else BlamesMatch(LeavesOf(tree.root.sentences), tokens, e)
  }

  /**
    Tree first, then tokens, then their correspondence. It passes exactly the
    well-formed trees with one token per leaf: on such trees the token checks
    never fail on their own. Otherwise it names the first offending item and a
    fault that item has.
   */
  method ValidateClassification(source: string, tree: Tree, tokens: seq<Token>) returns (e: Option<Error>)
    ensures e.None? <==> TreeOk(source, tree) && OneToOne(tree, tokens)
    ensures e.Some? ==> IsFirstFault(source, tree, tokens, e.value)
  {
    if !tree.root.Document? {
      return Some(Error(Root, UnexpectedNodeKind));
    }
    assert tree == Tree(Document(tree.root.sentences));
    e := ValidateTree(source, tree.root.sentences);
    if e.Some? {
      return;
    }
    LeavesAreOrdered(source, tree.root.sentences);
    e := ValidateTokens(source, tokens);
    if e.Some? {
      return;
    }
    e := MatchLeaves(LeavesOf(tree.root.sentences), tokens);
  }
}
