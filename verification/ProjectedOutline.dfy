/** The outline the projection builds is one the validator accepts. */
module ProjectedOutline {
  import opened Text
  import opened Syntax
  import opened Classification
  import opened IrDocument
  import opened IrRanges
  import opened CycleSearch
  import opened StructureCycles
  import opened StructureValidation
  import opened OutlineBuilder

  /** Sentence spans of a well-formed tree. */
  predicate SentencesOk(source: string, spans: seq<Span>) {
    InOrder(spans) && AllValid(source, spans)
  }

  lemma {:induction false} SpansAdvance(source: string, spans: seq<Span>, i: nat, j: nat)
    requires SentencesOk(source, spans) && i <= j < |spans|
    ensures spans[i].start <= spans[j].start && spans[i].end <= spans[j].end
    decreases j
  {
    if i < j {
      SpansAdvance(source, spans, i, j - 1);
      assert ValidSpan(source, spans[j - 1]) && ValidSpan(source, spans[j]);
    }
  }

  lemma IdIsIndex(spans: seq<Span>, paragraphs: seq<seq<nat>>, nodes: seq<OutlineNode>, k: nat)
    requires Built(spans, paragraphs, nodes) && k < |nodes|
    ensures nodes[k].nodeId == k
  {
    var count := |paragraphs|;
    if k < count {
      assert IsParagraphNode(spans, count, paragraphs[k], k, nodes[k]);
    } else {
      assert IsSentenceNode(spans, count, k - count, nodes[k]);
    }
  }

  lemma ResolvesToItself(spans: seq<Span>, paragraphs: seq<seq<nat>>, nodes: seq<OutlineNode>, k: nat)
    requires Built(spans, paragraphs, nodes) && k < |nodes|
    ensures Resolve(nodes, nodes[k].nodeId) == Some(k)
  {
    var id := nodes[k].nodeId;
    FirstWithIdIsFirst(nodes, id, |nodes|);
    IdIsIndex(spans, paragraphs, nodes, k);
    var r := Resolve(nodes, id);
    if r.Some? {
      IdIsIndex(spans, paragraphs, nodes, r.value);
    }
  }

  /** What the builder knows of one paragraph. */
  predicate Ascends(paragraph: seq<nat>, n: nat) {
    paragraph != [] && Increasing(paragraph) && EachBelow(paragraph, n)
  }

  lemma GroupedAscends(breaks: seq<bool>, n: nat, paragraphs: seq<seq<nat>>, p: nat)
    requires Grouped(breaks, n, paragraphs) && p < |paragraphs|
    ensures Ascends(paragraphs[p], n)
  {
    GroupedBelow(breaks, n, paragraphs, p);
    assert Holds(breaks, n, paragraphs[p], p);
  }

  lemma OneParagraphEach(breaks: seq<bool>, n: nat, paragraphs: seq<seq<nat>>, p: nat, q: nat, s: nat)
    requires Grouped(breaks, n, paragraphs) && p < |paragraphs| && q < |paragraphs|
    requires s in paragraphs[p] && s in paragraphs[q]
    ensures p == q
  {
    assert Holds(breaks, n, paragraphs[p], p) && Holds(breaks, n, paragraphs[q], q);
    assert BelongsTo(breaks, n, s, p) && BelongsTo(breaks, n, s, q);
  }

  lemma ParagraphRange(source: string, ctx: SourceContext, spans: seq<Span>, paragraphs: seq<seq<nat>>,
                       nodes: seq<OutlineNode>, p: nat)
    requires SentencesOk(source, spans) && ctx == SourceContext(ByteLen(source), Some(source))
    requires Built(spans, paragraphs, nodes) && p < |paragraphs| && Ascends(paragraphs[p], |spans|)
    ensures RangeOk(nodes[p].byteRange, ctx)
  {
    var paragraph := paragraphs[p];
    var first, last := paragraph[0], paragraph[|paragraph| - 1];
    assert IsParagraphNode(spans, |paragraphs|, paragraph, p, nodes[p]);
    assert ValidSpan(source, spans[first]) && ValidSpan(source, spans[last]);
    SpansAdvance(source, spans, first, last);
  }

  lemma NodesAreOk(source: string, ctx: SourceContext, breaks: seq<bool>, spans: seq<Span>, paragraphs: seq<seq<nat>>,
                   nodes: seq<OutlineNode>, k: nat)
    requires SentencesOk(source, spans) && ctx == SourceContext(ByteLen(source), Some(source))
    requires Grouped(breaks, |spans|, paragraphs) && Built(spans, paragraphs, nodes) && k < |nodes|
    ensures NodeOk(nodes, ctx, k)
  {
    var count := |paragraphs|;
    if k < count {
      GroupedAscends(breaks, |spans|, paragraphs, k);
      ParagraphRange(source, ctx, spans, paragraphs, nodes, k);
      assert IsParagraphNode(spans, count, paragraphs[k], k, nodes[k]);
    } else {
      assert IsSentenceNode(spans, count, k - count, nodes[k]);
      assert ValidSpan(source, spans[k - count]);
    }
    ResolvesToItself(spans, paragraphs, nodes, k);
    FirstWithIdIsFirst(nodes, nodes[k].nodeId, |nodes|);
  }

  /** Only a paragraph lists anything, and it lists its own sentences. */
  lemma ListedSentences(spans: seq<Span>, paragraphs: seq<seq<nat>>, nodes: seq<OutlineNode>, i: nat)
    requires Built(spans, paragraphs, nodes) && i < |nodes|
    ensures nodes[i].childNodeIds != [] ==>
              && i < |paragraphs| && |paragraphs[i]| == |nodes[i].childNodeIds|
              && forall j :: 0 <= j < |paragraphs[i]| ==> nodes[i].childNodeIds[j] == |paragraphs| + paragraphs[i][j]
  {
    var count := |paragraphs|;
    if i < count {
      assert IsParagraphNode(spans, count, paragraphs[i], i, nodes[i]);
    } else {
      assert IsSentenceNode(spans, count, i - count, nodes[i]);
    }
  }

  lemma ListedSentence(spans: seq<Span>, paragraphs: seq<seq<nat>>, nodes: seq<OutlineNode>, i: nat, j: nat)
    requires Built(spans, paragraphs, nodes) && i < |nodes| && j < |nodes[i].childNodeIds|
    ensures i < |paragraphs| && j < |paragraphs[i]| == |nodes[i].childNodeIds|
    ensures nodes[i].childNodeIds[j] == |paragraphs| + paragraphs[i][j]
  {
    ListedSentences(spans, paragraphs, nodes, i);
  }

  lemma SoleOwner(breaks: seq<bool>, spans: seq<Span>, paragraphs: seq<seq<nat>>, nodes: seq<OutlineNode>, p: nat, j: nat)
    requires Grouped(breaks, |spans|, paragraphs) && Built(spans, paragraphs, nodes)
    requires p < |nodes| && j < |nodes[p].childNodeIds|
    ensures OwnerOf(nodes, p, j) == p
  {
    var child := nodes[p].childNodeIds[j];
    var q := OwnerOf(nodes, p, j);
    FirstParentExists(nodes, child, p, p + 1);
    var m :| 0 <= m < |nodes[q].childNodeIds| && nodes[q].childNodeIds[m] == child;
    ListedSentence(spans, paragraphs, nodes, p, j);
    ListedSentence(spans, paragraphs, nodes, q, m);
    OneParagraphEach(breaks, |spans|, paragraphs, p, q, paragraphs[p][j]);
  }

  lemma SentenceWithinParagraph(source: string, spans: seq<Span>, paragraphs: seq<seq<nat>>, nodes: seq<OutlineNode>,
                                p: nat, j: nat)
    requires SentencesOk(source, spans) && Built(spans, paragraphs, nodes)
    requires p < |paragraphs| && Ascends(paragraphs[p], |spans|) && j < |paragraphs[p]|
    ensures Within(nodes[|paragraphs| + paragraphs[p][j]].byteRange, nodes[p].byteRange)
  {
    var paragraph, count := paragraphs[p], |paragraphs|;
    var last := |paragraph| - 1;
    assert IsParagraphNode(spans, count, paragraph, p, nodes[p]);
    assert IsSentenceNode(spans, count, paragraph[j], nodes[count + paragraph[j]]);
    SpansAdvance(source, spans, paragraph[0], paragraph[j]);
    SpansAdvance(source, spans, paragraph[j], paragraph[last]);
  }

  lemma EdgesAreOk(source: string, breaks: seq<bool>, spans: seq<Span>, paragraphs: seq<seq<nat>>,
                   nodes: seq<OutlineNode>, p: nat, j: nat)
    requires SentencesOk(source, spans) && Grouped(breaks, |spans|, paragraphs) && Built(spans, paragraphs, nodes)
    requires p < |nodes| && j < |nodes[p].childNodeIds|
    ensures EdgeOk(nodes, p, j)
  {
    ListedSentence(spans, paragraphs, nodes, p, j);
    GroupedAscends(breaks, |spans|, paragraphs, p);
    var k := |paragraphs| + paragraphs[p][j];
    IdIsIndex(spans, paragraphs, nodes, k);
    ResolvesToItself(spans, paragraphs, nodes, k);
    SentenceWithinParagraph(source, spans, paragraphs, nodes, p, j);
    SoleOwner(breaks, spans, paragraphs, nodes, p, j);
  }

  /** Edges lead from paragraphs to sentences, so none continues another. */
  lemma LinksLeaveParagraphs(breaks: seq<bool>, spans: seq<Span>, paragraphs: seq<seq<nat>>, nodes: seq<OutlineNode>,
                             x: nat, y: nat)
    requires Grouped(breaks, |spans|, paragraphs) && Built(spans, paragraphs, nodes)
    requires Linked(GraphOf(nodes), Edges(GraphOf(nodes)), x, y)
    ensures x < |paragraphs| <= y
  {
    var g := GraphOf(nodes);
    var e :| e in Edges(g) && Joins(g, e, x, y);
    ListedSentence(spans, paragraphs, nodes, x, e.index);
    GroupedAscends(breaks, |spans|, paragraphs, x);
    var k := |paragraphs| + paragraphs[x][e.index];
    IdIsIndex(spans, paragraphs, nodes, k);
    ResolvesToItself(spans, paragraphs, nodes, k);
  }

  lemma NoCycles(breaks: seq<bool>, spans: seq<Span>, paragraphs: seq<seq<nat>>, nodes: seq<OutlineNode>)
    requires Grouped(breaks, |spans|, paragraphs) && Built(spans, paragraphs, nodes)
    ensures Acyclic(GraphOf(nodes), Edges(GraphOf(nodes)))
  {
    var g := GraphOf(nodes);
    forall p
      ensures !Cycle(g, Edges(g), p)
    {
      if |p| > 1 && Walk(g, Edges(g), p) {
        LinksLeaveParagraphs(breaks, spans, paragraphs, nodes, p[0], p[1]);
        LinksLeaveParagraphs(breaks, spans, paragraphs, nodes, p[|p| - 2], p[|p| - 1]);
      }
    }
  }

  /** The outline of ordered, valid sentences passes every structure check. */
  lemma BuiltOutlineIsOk(source: string, ctx: SourceContext, breaks: seq<bool>, spans: seq<Span>,
                         paragraphs: seq<seq<nat>>, nodes: seq<OutlineNode>)
    requires SentencesOk(source, spans) && ctx == SourceContext(ByteLen(source), Some(source))
    requires Grouped(breaks, |spans|, paragraphs) && Built(spans, paragraphs, nodes)
    ensures OutlineOk(nodes, ctx)
  {
    forall k | 0 <= k < |nodes|
      ensures NodeOk(nodes, ctx, k)
    {
      NodesAreOk(source, ctx, breaks, spans, paragraphs, nodes, k);
    }
    forall i | 0 <= i < |nodes|
      ensures EdgesOk(nodes, i)
    {
      forall j | 0 <= j < |nodes[i].childNodeIds|
        ensures EdgeOk(nodes, i, j)
      {
        EdgesAreOk(source, breaks, spans, paragraphs, nodes, i, j);
      }
    }
    NoCycles(breaks, spans, paragraphs, nodes);
  }

  lemma EmptyOutlineIsOk(ctx: SourceContext)
    ensures OutlineOk([], ctx)
  {
    var g := GraphOf([]);
    forall p
      ensures !Cycle(g, Edges(g), p)
    {
      if |p| > 1 {
        assert !Linked(g, Edges(g), p[0], p[1]);
      }
    }
  }
}
