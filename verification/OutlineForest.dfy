/**
  What an accepted outline is: a forest. Ids are unique, every child resolves,
  every node is listed by at most one node and climbs by parents to one root,
  and its range lies inside the range of every ancestor.

  The validator promises no more than that: a node may list one child twice,
  and nothing constrains the kind of a parent.
 */
module OutlineForest {
  import opened Text
  import opened IrDocument
  import opened IrRanges
  import opened CycleSearch
  import opened StructureCycles
  import opened StructureValidation

  lemma IdsAreUnique(structure: seq<OutlineNode>, ctx: SourceContext, i: nat, k: nat)
    requires OutlineOk(structure, ctx) && i < |structure| && k < |structure|
    requires structure[i].nodeId == structure[k].nodeId
    ensures i == k
  {
    assert NodeOk(structure, ctx, i) && NodeOk(structure, ctx, k);
  }

  /** Node `p` lists node `k` as a child. */
  predicate Lists(structure: seq<OutlineNode>, p: nat, k: nat) {
    p < |structure| && k < |structure| && structure[k].nodeId in structure[p].childNodeIds
  }

  lemma ListedEdge(structure: seq<OutlineNode>, ctx: SourceContext, p: nat, k: nat) returns (j: nat)
    requires OutlineOk(structure, ctx) && Lists(structure, p, k)
    ensures j < |structure[p].childNodeIds| && structure[p].childNodeIds[j] == structure[k].nodeId
    ensures EdgeOk(structure, p, j) && Resolve(structure, structure[k].nodeId) == Some(k)
  {
    j :| 0 <= j < |structure[p].childNodeIds| && structure[p].childNodeIds[j] == structure[k].nodeId;
    assert EdgesOk(structure, p);
    FirstWithIdIsFirst(structure, structure[k].nodeId, |structure|);
    IdsAreUnique(structure, ctx, Resolve(structure, structure[k].nodeId).value, k);
  }

  /** Every child id names exactly one node. */
  lemma ChildrenResolve(structure: seq<OutlineNode>, ctx: SourceContext, p: nat, j: nat)
    requires OutlineOk(structure, ctx) && p < |structure| && j < |structure[p].childNodeIds|
    ensures var id := structure[p].childNodeIds[j];
            exists k :: 0 <= k < |structure| && structure[k].nodeId == id
                        && forall m :: 0 <= m < |structure| && structure[m].nodeId == id ==> m == k
  {
    var id := structure[p].childNodeIds[j];
    assert EdgesOk(structure, p) && EdgeOk(structure, p, j);
    FirstWithIdIsFirst(structure, id, |structure|);
    var k := Resolve(structure, id).value;
    forall m | 0 <= m < |structure| && structure[m].nodeId == id
      ensures m == k
    {
      IdsAreUnique(structure, ctx, m, k);
    }
  }

  /** The first node that lists node `k`; the next lemma says it is the only one. */
  function Parent(structure: seq<OutlineNode>, k: nat): (r: Option<nat>)
    requires k < |structure|
    ensures r.Some? ==> r.value < |structure| && Lists(structure, r.value, k)
  {
    FirstParent(structure, structure[k].nodeId, |structure|)
  }

  lemma {:induction false} FirstParentIsStable(structure: seq<OutlineNode>, child: i32, m: nat, n: nat)
    requires m <= n <= |structure| && FirstParent(structure, child, m).Some?
    ensures FirstParent(structure, child, n) == FirstParent(structure, child, m)
    decreases n
  {
    if m < n {
      FirstParentIsStable(structure, child, m, n - 1);
    }
  }

  lemma OnlyOneParent(structure: seq<OutlineNode>, ctx: SourceContext, p: nat, k: nat)
    requires OutlineOk(structure, ctx) && Lists(structure, p, k)
    ensures Parent(structure, k) == Some(p)
  {
    var j := ListedEdge(structure, ctx, p, k);
    var child := structure[k].nodeId;
    FirstParentExists(structure, child, p, p + 1);
    FirstParentIsStable(structure, child, p + 1, |structure|);
    IdsAreUnique(structure, ctx, OwnerOf(structure, p, j), p);
  }

  // ----- Climbing -----

  /** The node `n` parents above `k`, if there are that many. */
  function Ancestor(structure: seq<OutlineNode>, k: nat, n: nat): (r: Option<nat>)
    requires k < |structure|
    ensures r.Some? ==> r.value < |structure|
    decreases n
  {
    if n == 0 then Some(k)
    else
      match Parent(structure, k)
      case None => None
      case Some(p) => Ancestor(structure, p, n - 1)
  }

  lemma ParentContains(structure: seq<OutlineNode>, ctx: SourceContext, p: nat, k: nat)
    requires OutlineOk(structure, ctx) && Lists(structure, p, k)
    ensures Within(structure[k].byteRange, structure[p].byteRange)
  {
    var j := ListedEdge(structure, ctx, p, k);
  }

  /** Every ancestor's range contains the node's. */
  lemma {:induction false} AncestorsContain(structure: seq<OutlineNode>, ctx: SourceContext, k: nat, n: nat)
    requires OutlineOk(structure, ctx) && k < |structure| && Ancestor(structure, k, n).Some?
    ensures Within(structure[k].byteRange, structure[Ancestor(structure, k, n).value].byteRange)
    decreases n
  {
    if n > 0 {
      var p := Parent(structure, k).value;
      ParentContains(structure, ctx, p, k);
      AncestorsContain(structure, ctx, p, n - 1);
    }
  }

  /** The search finishes a node before its parent. */
  lemma ParentFinishesLater(structure: seq<OutlineNode>, ctx: SourceContext, p: nat, k: nat, i: nat)
    requires OutlineOk(structure, ctx) && IsGraph(GraphOf(structure)) && Lists(structure, p, k)
    requires var finished := SearchAll(GraphOf(structure)).finished; i < |finished| && finished[i] == p
    ensures k in SearchAll(GraphOf(structure)).finished[..i]
  {
    var g := GraphOf(structure);
    var j := ListedEdge(structure, ctx, p, k);
    ReportsExactlyCycles(g);
    KeptAreEdges(g);
    assert Edge(p, j) in Edges(g);
    assert Joins(g, Edge(p, j), p, k) && Linked(g, Kept(g), p, k);
    assert Walk(g, Kept(g), [p, k]);
    KeptWalkDescends(g, [p, k], i);
  }

  /** `k` climbs to `r` in `n` steps, and `r` has no parent. */
  predicate RootedAt(structure: seq<OutlineNode>, k: nat, n: nat, r: nat)
    requires k < |structure|
  {
    Ancestor(structure, k, n) == Some(r) && Parent(structure, r) == None
  }

  ghost predicate HasOneRoot(structure: seq<OutlineNode>, k: nat)
    requires k < |structure|
  {
    exists n: nat, r: nat ::
      RootedAt(structure, k, n, r) && forall m: nat, s: nat :: RootedAt(structure, k, m, s) ==> m == n && s == r
  }

  lemma {:induction false} ClimbsToARoot(structure: seq<OutlineNode>, ctx: SourceContext, k: nat, i: nat)
    returns (n: nat, r: nat)
    requires OutlineOk(structure, ctx) && IsGraph(GraphOf(structure)) && k < |structure|
    requires var finished := SearchAll(GraphOf(structure)).finished; i < |finished| && finished[i] == k
    ensures RootedAt(structure, k, n, r)
    decreases |SearchAll(GraphOf(structure)).finished| - i
  {
    var g := GraphOf(structure);
    var finished := SearchAll(g).finished;
    n, r := 0, k;
    if Parent(structure, k).Some? {
      var p := Parent(structure, k).value;
      SearchIsSound(g);
      assert p in finished;
      var q :| 0 <= q < |finished| && finished[q] == p;
      ParentFinishesLater(structure, ctx, p, k, q);
      var m :| 0 <= m < q && finished[m] == k;
      n, r := ClimbsToARoot(structure, ctx, p, q);
      n := n + 1;
    }
  }

  lemma {:induction false} OnlyOneRoot(structure: seq<OutlineNode>, k: nat, n: nat, r: nat, m: nat, s: nat)
    requires k < |structure| && RootedAt(structure, k, n, r) && RootedAt(structure, k, m, s)
    ensures n == m && r == s
    decreases n
  {
    if n > 0 && m > 0 {
      OnlyOneRoot(structure, Parent(structure, k).value, n - 1, r, m - 1, s);
    }
  }

  /** An outline the validator accepts is a forest whose ranges nest. */
  lemma AcceptedOutlineIsForest(structure: seq<OutlineNode>, ctx: SourceContext)
    requires OutlineOk(structure, ctx)
    ensures forall i, k :: 0 <= i < |structure| && 0 <= k < |structure| && structure[i].nodeId == structure[k].nodeId
              ==> i == k
    ensures forall p, q, k :: Lists(structure, p, k) && Lists(structure, q, k) ==> p == q
    ensures forall k :: 0 <= k < |structure| ==> HasOneRoot(structure, k)
    ensures forall k: nat, n: nat :: k < |structure| && Ancestor(structure, k, n).Some? ==>
              Within(structure[k].byteRange, structure[Ancestor(structure, k, n).value].byteRange)
  {
    forall i, k | 0 <= i < |structure| && 0 <= k < |structure| && structure[i].nodeId == structure[k].nodeId
      ensures i == k
    {
      IdsAreUnique(structure, ctx, i, k);
    }
    forall p, q, k | Lists(structure, p, k) && Lists(structure, q, k)
      ensures p == q
    {
      OnlyOneParent(structure, ctx, p, k);
      OnlyOneParent(structure, ctx, q, k);
    }
    forall k | 0 <= k < |structure|
      ensures HasOneRoot(structure, k)
    {
      var g := GraphOf(structure);
      GraphIsGraph(structure);
      SearchIsSound(g);
      assert k in SearchAll(g).finished;
      var i :| 0 <= i < |SearchAll(g).finished| && SearchAll(g).finished[i] == k;
      var n, r := ClimbsToARoot(structure, ctx, k, i);
      forall m: nat, s: nat | RootedAt(structure, k, m, s)
        ensures m == n && s == r
      {
        OnlyOneRoot(structure, k, n, r, m, s);
      }
    }
    forall k: nat, n: nat | k < |structure| && Ancestor(structure, k, n).Some?
      ensures Within(structure[k].byteRange, structure[Ancestor(structure, k, n).value].byteRange)
    {
      AncestorsContain(structure, ctx, k, n);
    }
  }

  // ----- What the validator does not promise -----

  /** A sentence that lists a paragraph, twice. */
  function OddOutline(): seq<OutlineNode> {
    var whole := ByteRange(0, 0);
    [OutlineNode(0, SentenceOutline, whole, 1, [1, 1]), OutlineNode(1, ParagraphOutline, whole, 0, [])]
  }

  lemma OddLink(g: Graph, x: nat, y: nat)
    requires |g| == 2 && g[0] == [Some(1), Some(1)] && g[1] == [] && Linked(g, Edges(g), x, y)
    ensures x == 0 && y == 1
  {
  }

  lemma OddOutlineIsAccepted(ctx: SourceContext)
    requires ctx == SourceContext(0, None)
    ensures OutlineOk(OddOutline(), ctx)
  {
    var structure := OddOutline();
    var g := GraphOf(structure);
    FirstWithIdIsFirst(structure, 1, 2);
    assert Resolve(structure, 1) == Some(1);
    assert g[0] == [Some(1), Some(1)] && g[1] == [];
    forall p
      ensures !Cycle(g, Edges(g), p)
    {
      if |p| > 1 && Walk(g, Edges(g), p) {
        OddLink(g, p[0], p[1]);
        OddLink(g, p[|p| - 2], p[|p| - 1]);
      }
    }
    assert OwnerOf(structure, 0, 0) == 0 && OwnerOf(structure, 0, 1) == 0;
    assert EdgeOk(structure, 0, 0) && EdgeOk(structure, 0, 1);
  }
}
