/** Grouping sentences into paragraphs, and the outline built from them. */
module OutlineBuilder {
  import opened Text
  import opened Characters
  import opened Syntax
  import opened Coordinates
  import opened IrDocument

  const I32_MAX: nat := 0x7FFF_FFFF

  /** A value too large for the wire, and what it was. */
  datatype What = ByteRangeStart | ByteRangeEnd | SourceLength | TokenIndex | ParagraphId | SentenceId

  datatype Overflow = Overflow(what: What, value: nat)

  datatype Narrowed<+T> = Fits(value: T) | TooLarge(overflow: Overflow)

  function ToI32(what: What, value: nat): (r: Narrowed<i32>)
    ensures r.Fits? <==> value <= I32_MAX
    ensures r.Fits? ==> r.value == value
    ensures r.TooLarge? ==> r.overflow.value > I32_MAX
  {
    if value <= I32_MAX then Fits(value) else TooLarge(Overflow(what, value))
  }

  function RangeOf(span: Span): ByteRange
    requires span.start <= I32_MAX && span.end <= I32_MAX
  {
    ByteRange(span.start, span.end)
  }

  function NarrowRange(span: Span): (r: Narrowed<ByteRange>)
    ensures r.Fits? <==> span.start <= I32_MAX && span.end <= I32_MAX
    ensures r.Fits? ==> r.value == RangeOf(span)
    ensures r.TooLarge? ==> r.overflow.value > I32_MAX
  {
    match ToI32(ByteRangeStart, span.start)
    case TooLarge(o) => TooLarge(o)
    case Fits(start) =>
      match ToI32(ByteRangeEnd, span.end)
      case TooLarge(o) => TooLarge(o)
      case Fits(end) => Fits(ByteRange(start, end))
  }

  // ----- Paragraph breaks -----

  /** `\n`, `\r` and `\r\n` are one break each: the line starts the coordinate index sees after the first. */
  method LogicalLineBreakCount(text: string) returns (count: nat)
    ensures count == LineNumber(text, |text|)
  {
    count := 0;
    var k: nat := 0;
    while k < |text|
      invariant k <= |text| && !InsideCrLf(text, k)
      invariant count == LineNumber(text, k)
    {
      match text[k] {
        case '\r' =>
          count := count + 1;
          if k + 1 < |text| && text[k + 1] == '\n' {
            assert LineNumber(text, k + 1) == LineNumber(text, k);
            k := k + 1;
          }
        case '\n' => count := count + 1;
        case _ =>
      }
      k := k + 1;
    }
  }

  /** A blank line: at least two line breaks and nothing but whitespace. */
  predicate IsParagraphGap(gap: string) {
    LineNumber(gap, |gap|) >= 2 && forall c <- gap :: IsWhitespace(c)
  }

  method IsParagraphBreak(gap: string) returns (isBreak: bool)
    ensures isBreak == IsParagraphGap(gap)
  {
    var count := LogicalLineBreakCount(gap);
    isBreak := count >= 2 && forall c <- gap :: IsWhitespace(c);
  }

  /** The source between two sentences, or nothing when the bytes do not delimit characters. */
  function Gap(source: string, from: nat, to: nat): string {
    if from <= to && IsBoundary(source, from) && IsBoundary(source, to) then Slice(source, from, to) else ""
  }

  /** A paragraph starts at sentence `s`, which is not the first. */
  predicate Breaks(source: string, spans: seq<Span>, s: nat)
    requires 0 < s < |spans|
  {
    IsParagraphGap(Gap(source, spans[s - 1].end, spans[s].start))
  }

  /** Which sentences start a paragraph of their own, the first aside. */
  function BreaksOf(source: string, spans: seq<Span>): (breaks: seq<bool>) {
    seq(|spans|, s requires 0 <= s < |spans| => s > 0 && Breaks(source, spans, s))
  }

  // ----- Grouping -----

  /** The paragraph of sentence `s`: how many breaks precede it. */
  function ParagraphOf(breaks: seq<bool>, s: nat): nat
    requires s < |breaks|
  {
    if s == 0 then 0 else ParagraphOf(breaks, s - 1) + if breaks[s] then 1 else 0
  }

  function ParagraphCount(breaks: seq<bool>): nat {
    if breaks == [] then 0 else ParagraphOf(breaks, |breaks| - 1) + 1
  }

  lemma {:induction false} ParagraphsAdvance(breaks: seq<bool>, r: nat, s: nat)
    requires r <= s < |breaks|
    ensures ParagraphOf(breaks, r) <= ParagraphOf(breaks, s)
    decreases s
  {
    if r < s {
      ParagraphsAdvance(breaks, r, s - 1);
    }
  }

  predicate Increasing(xs: seq<nat>) {
    forall i, j :: 0 <= i < j < |xs| ==> xs[i] < xs[j]
  }

  ghost predicate BelongsTo(breaks: seq<bool>, n: nat, s: nat, p: nat) {
    s < n && s < |breaks| && ParagraphOf(breaks, s) == p
  }

  /** Paragraph `p` holds, in order, exactly the sentences before `n` that belong to it. */
  ghost predicate Holds(breaks: seq<bool>, n: nat, paragraph: seq<nat>, p: nat) {
    && paragraph != [] && Increasing(paragraph)
    && forall s: nat :: s in paragraph <==> BelongsTo(breaks, n, s, p)
  }

  ghost predicate Grouped(breaks: seq<bool>, n: nat, paragraphs: seq<seq<nat>>) {
    && 0 < n <= |breaks|
    && |paragraphs| == ParagraphOf(breaks, n - 1) + 1
    && forall p :: 0 <= p < |paragraphs| ==> Holds(breaks, n, paragraphs[p], p)
  }

  lemma OtherParagraph(breaks: seq<bool>, n: nat, paragraph: seq<nat>, p: nat)
    requires n < |breaks| && Holds(breaks, n, paragraph, p) && ParagraphOf(breaks, n) != p
    ensures Holds(breaks, n + 1, paragraph, p)
  {
    forall s: nat
      ensures BelongsTo(breaks, n + 1, s, p) <==> BelongsTo(breaks, n, s, p)
    {
    }
  }

  lemma NewParagraph(breaks: seq<bool>, n: nat, paragraphs: seq<seq<nat>>)
    requires Grouped(breaks, n, paragraphs) && n < |breaks| && breaks[n]
    ensures Grouped(breaks, n + 1, paragraphs + [[n]])
  {
    forall p | 0 <= p < |paragraphs|
      ensures Holds(breaks, n + 1, paragraphs[p], p)
    {
      OtherParagraph(breaks, n, paragraphs[p], p);
    }
    forall s: nat
      ensures s in [n] <==> BelongsTo(breaks, n + 1, s, |paragraphs|)
    {
      if s < n {
        ParagraphsAdvance(breaks, s, n - 1);
      }
    }
    assert Holds(breaks, n + 1, [n], |paragraphs|);
  }

  lemma LongerParagraph(breaks: seq<bool>, n: nat, paragraph: seq<nat>, p: nat)
    requires n < |breaks| && Holds(breaks, n, paragraph, p) && ParagraphOf(breaks, n) == p
    ensures Holds(breaks, n + 1, paragraph + [n], p)
  {
    forall i | 0 <= i < |paragraph|
      ensures paragraph[i] < n
    {
      assert paragraph[i] in paragraph;
      assert BelongsTo(breaks, n, paragraph[i], p);
    }
    forall s: nat
      ensures s in paragraph + [n] <==> BelongsTo(breaks, n + 1, s, p)
    {
      assert s in paragraph <==> BelongsTo(breaks, n, s, p);
    }
  }

  lemma SameParagraph(breaks: seq<bool>, n: nat, paragraphs: seq<seq<nat>>)
    requires Grouped(breaks, n, paragraphs) && n < |breaks| && !breaks[n]
    ensures var last := |paragraphs| - 1; Grouped(breaks, n + 1, paragraphs[last := paragraphs[last] + [n]])
  {
    var last := |paragraphs| - 1;
    LongerParagraph(breaks, n, paragraphs[last], last);
    forall p | 0 <= p < last
      ensures Holds(breaks, n + 1, paragraphs[p], p)
    {
      OtherParagraph(breaks, n, paragraphs[p], p);
    }
  }

  lemma FirstParagraph(breaks: seq<bool>)
    requires breaks != []
    ensures Grouped(breaks, 1, [[0]])
  {
    forall s: nat
      ensures s in [0] <==> BelongsTo(breaks, 1, s, 0)
    {
    }
    assert Holds(breaks, 1, [0], 0);
  }

  method StartsParagraph(source: string, spans: seq<Span>, s: nat) returns (starts: bool)
    requires 0 < s < |spans|
    ensures starts == BreaksOf(source, spans)[s]
  {
    starts := IsParagraphBreak(Gap(source, spans[s - 1].end, spans[s].start));
  }

  /** Sentence `i` opens a paragraph or joins the last one. */
  method PlaceSentence(paragraphs: seq<seq<nat>>, i: nat, isBreak: bool, ghost breaks: seq<bool>)
    returns (paragraphs': seq<seq<nat>>)
    requires Grouped(breaks, i, paragraphs) && i < |breaks| && isBreak == breaks[i]
    ensures Grouped(breaks, i + 1, paragraphs')
  {
    if isBreak {
      NewParagraph(breaks, i, paragraphs);
      paragraphs' := paragraphs + [[i]];
    } else {
      SameParagraph(breaks, i, paragraphs);
      var last := |paragraphs| - 1;
      paragraphs' := paragraphs[last := paragraphs[last] + [i]];
    }
  }

  method GroupParagraphs(source: string, spans: seq<Span>) returns (paragraphs: seq<seq<nat>>)
    requires spans != []
    ensures Grouped(BreaksOf(source, spans), |spans|, paragraphs)
  {
    ghost var breaks := BreaksOf(source, spans);
    paragraphs := [[0]];
    FirstParagraph(breaks);
    for i := 1 to |spans|
      invariant Grouped(breaks, i, paragraphs)
    {
      var isBreak := StartsParagraph(source, spans, i);
      paragraphs := PlaceSentence(paragraphs, i, isBreak, breaks);
    }
  }

  // ----- The nodes -----

  /** The spans of the document's sentences. */
  function SentenceSpans(nodes: seq<Node>): seq<Span> {
    if nodes == [] then []
    else
      var last := nodes[|nodes| - 1];
      SentenceSpans(nodes[..|nodes| - 1]) + if last.Sentence? then [last.span] else []
  }

  predicate SpanFits(span: Span) {
    span.start <= I32_MAX && span.end <= I32_MAX
  }

  predicate SpansFit(spans: seq<Span>) {
    forall s :: 0 <= s < |spans| ==> SpanFits(spans[s])
  }

  /** The largest node id, of the last sentence, fits the wire. */
  predicate IdsFit(paragraphs: nat, sentences: nat) {
    sentences == 0 || paragraphs + sentences - 1 <= I32_MAX
  }

  predicate IsParagraphNode(spans: seq<Span>, count: nat, paragraph: seq<nat>, p: nat, node: OutlineNode) {
    && paragraph != [] && paragraph[0] < |spans| && paragraph[|paragraph| - 1] < |spans|
    && node.nodeId == p && node.kind == ParagraphOutline && node.depth == 0
    && node.byteRange.startUtf8 == spans[paragraph[0]].start
    && node.byteRange.endUtf8 == spans[paragraph[|paragraph| - 1]].end
    && |node.childNodeIds| == |paragraph|
    && forall j :: 0 <= j < |paragraph| ==> node.childNodeIds[j] == count + paragraph[j]
  }

  predicate IsSentenceNode(spans: seq<Span>, count: nat, s: nat, node: OutlineNode) {
    && s < |spans|
    && node.nodeId == count + s && node.kind == SentenceOutline && node.depth == 1
    && node.byteRange.startUtf8 == spans[s].start && node.byteRange.endUtf8 == spans[s].end
    && node.childNodeIds == []
  }

  /** Paragraphs first, each listing its sentences; then the sentences, numbered after the paragraphs. */
  predicate Built(spans: seq<Span>, paragraphs: seq<seq<nat>>, nodes: seq<OutlineNode>) {
    var count := |paragraphs|;
    && |nodes| == count + |spans|
    && (forall p :: 0 <= p < count ==> IsParagraphNode(spans, count, paragraphs[p], p, nodes[p]))
    && (forall k :: count <= k < |nodes| ==> IsSentenceNode(spans, count, k - count, nodes[k]))
  }

  predicate EachBelow(paragraph: seq<nat>, n: nat) {
    forall j :: 0 <= j < |paragraph| ==> paragraph[j] < n
  }

  predicate ChildIdsFit(count: nat, paragraph: seq<nat>) {
    forall j :: 0 <= j < |paragraph| ==> count + paragraph[j] <= I32_MAX
  }

  method NarrowIds(count: nat, paragraph: seq<nat>) returns (ids: Narrowed<seq<i32>>)
    ensures ids.Fits? <==> ChildIdsFit(count, paragraph)
    ensures ids.Fits? ==> |ids.value| == |paragraph| && forall j :: 0 <= j < |paragraph| ==> ids.value[j] == count + paragraph[j]
    ensures ids.TooLarge? ==> ids.overflow.value > I32_MAX
  {
    var narrowed: seq<i32> := [];
    for j := 0 to |paragraph|
      invariant |narrowed| == j && forall k :: 0 <= k < j ==> narrowed[k] == count + paragraph[k]
      invariant forall k :: 0 <= k < j ==> count + paragraph[k] <= I32_MAX
    {
      match ToI32(SentenceId, count + paragraph[j]) {
        case TooLarge(o) => return TooLarge(o);
        case Fits(id) => narrowed := narrowed + [id];
      }
    }
    return Fits(narrowed);
  }

  /** The outline node of one paragraph, narrowed in the order its fields are built. */
  method ParagraphNode(spans: seq<Span>, count: nat, paragraph: seq<nat>, p: nat) returns (node: Narrowed<OutlineNode>)
    requires paragraph != [] && EachBelow(paragraph, |spans|)
    ensures node.Fits? ==> IsParagraphNode(spans, count, paragraph, p, node.value)
    ensures SpansFit(spans) && p <= I32_MAX && ChildIdsFit(count, paragraph) ==> node.Fits?
    ensures node.TooLarge? ==> node.overflow.value > I32_MAX
  {
    var first, last := spans[paragraph[0]], spans[paragraph[|paragraph| - 1]];
    var id := ToI32(ParagraphId, p);
    if id.TooLarge? {
      return TooLarge(id.overflow);
    }
    var range := NarrowRange(Span(first.start, last.end));
    if range.TooLarge? {
      return TooLarge(range.overflow);
    }
    var children := NarrowIds(count, paragraph);
    if children.TooLarge? {
      return TooLarge(children.overflow);
    }
    return Fits(OutlineNode(id.value, ParagraphOutline, range.value, 0, children.value));
  }

  method SentenceNode(spans: seq<Span>, count: nat, s: nat) returns (node: Narrowed<OutlineNode>)
    requires s < |spans|
    ensures node.Fits? ==> IsSentenceNode(spans, count, s, node.value)
    ensures node.Fits? <==> count + s <= I32_MAX && SpanFits(spans[s])
    ensures node.TooLarge? ==> node.overflow.value > I32_MAX
  {
    var id := ToI32(SentenceId, count + s);
    if id.TooLarge? {
      return TooLarge(id.overflow);
    }
    var range := NarrowRange(spans[s]);
    if range.TooLarge? {
      return TooLarge(range.overflow);
    }
    return Fits(OutlineNode(id.value, SentenceOutline, range.value, 1, []));
  }

  lemma GroupedBelow(breaks: seq<bool>, n: nat, paragraphs: seq<seq<nat>>, p: nat)
    requires Grouped(breaks, n, paragraphs) && p < |paragraphs|
    ensures paragraphs[p] != [] && EachBelow(paragraphs[p], n)
  {
    var paragraph := paragraphs[p];
    assert Holds(breaks, n, paragraph, p);
    forall j | 0 <= j < |paragraph|
      ensures paragraph[j] < n
    {
      assert paragraph[j] in paragraph;
      assert BelongsTo(breaks, n, paragraph[j], p);
    }
  }

  method BuildStructure(source: string, tree: Tree) returns (nodes: Narrowed<seq<OutlineNode>>, ghost paragraphs: seq<seq<nat>>)
    ensures var spans := if tree.root.Document? then SentenceSpans(tree.root.sentences) else [];
            && (nodes.Fits? <==> SpansFit(spans) && IdsFit(ParagraphCount(BreaksOf(source, spans)), |spans|))
            && (nodes.Fits? && spans == [] ==> nodes.value == [])
            && (nodes.Fits? && spans != [] ==>
                  Grouped(BreaksOf(source, spans), |spans|, paragraphs) && Built(spans, paragraphs, nodes.value))
    ensures nodes.TooLarge? ==> nodes.overflow.value > I32_MAX
  {
    if !tree.root.Document? {
      return Fits([]), [];
    }
    var spans := SentenceSpans(tree.root.sentences);
    if spans == [] {
      return Fits([]), [];
    }
    var groups := GroupParagraphs(source, spans);
    paragraphs := groups;
    nodes := BuildNodes(spans, groups, BreaksOf(source, spans));
  }

  method BuildNodes(spans: seq<Span>, paragraphs: seq<seq<nat>>, ghost breaks: seq<bool>)
    returns (nodes: Narrowed<seq<OutlineNode>>)
    requires spans != [] && |breaks| == |spans| && Grouped(breaks, |spans|, paragraphs)
    ensures nodes.Fits? <==> SpansFit(spans) && IdsFit(|paragraphs|, |spans|)
    ensures nodes.Fits? ==> Built(spans, paragraphs, nodes.value)
    ensures nodes.TooLarge? ==> nodes.overflow.value > I32_MAX
  {
    var count := |paragraphs|;
    var built: seq<OutlineNode> := [];
    for p := 0 to count
      invariant |built| == p
      invariant forall q :: 0 <= q < p ==> IsParagraphNode(spans, count, paragraphs[q], q, built[q])
    {
      GroupedBelow(breaks, |spans|, paragraphs, p);
      var node := ParagraphNode(spans, count, paragraphs[p], p);
      if node.TooLarge? {
        return TooLarge(node.overflow);
      }
      built := built + [node.value];
    }
    for s := 0 to |spans|
      invariant |built| == count + s
      invariant forall q :: 0 <= q < count ==> IsParagraphNode(spans, count, paragraphs[q], q, built[q])
      invariant forall k :: count <= k < |built| ==> IsSentenceNode(spans, count, k - count, built[k])
      invariant forall r :: 0 <= r < s ==> SpanFits(spans[r])
      invariant s > 0 ==> count + s - 1 <= I32_MAX
    {
      var node := SentenceNode(spans, count, s);
      if node.TooLarge? {
        return TooLarge(node.overflow);
      }
      built := built + [node.value];
    }
    return Fits(built);
  }
}
