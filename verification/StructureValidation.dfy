/** The outline checks of the document validator, and the forest an accepted outline is. */
module StructureValidation {
  import opened Sequences
  import opened Text
  import opened IrDocument
  import opened IrRanges
  import opened CycleSearch
  import opened StructureCycles

  // ----- Nodes -----

  function NodePath(i: nat): Path {
    [Field(StructureField), Index(i)]
  }

  function KindDepth(kind: OutlineKind): i32 {
    match kind
    case ParagraphOutline => 0
    case SentenceOutline => 1
  }

  /** An earlier node has the id of node `i`. */
  predicate RepeatsId(structure: seq<OutlineNode>, i: nat)
    requires i < |structure|
  {
    exists k :: 0 <= k < i && structure[k].nodeId == structure[i].nodeId
  }

  function NodeErrorsAt(structure: seq<OutlineNode>, ctx: SourceContext, i: nat): seq<ValidationError>
    requires i < |structure|
  {
    var node := structure[i];
    RangeErrors(AtField(NodePath(i), ByteRangeField), node.byteRange, ctx)
    + (if RepeatsId(structure, i) then [DuplicateNodeId(NodePath(i), node.nodeId)] else [])
    + (if node.depth != KindDepth(node.kind) then
         [InvalidOutlineDepth(AtField(NodePath(i), DepthField), node.depth, KindDepth(node.kind))]
       else [])
  }

  function NodeFaults(structure: seq<OutlineNode>, ctx: SourceContext): nat -> seq<ValidationError> {
    (i: nat) => if i < |structure| then NodeErrorsAt(structure, ctx, i) else []
  }

  function NodeErrorsUpTo(structure: seq<OutlineNode>, ctx: SourceContext, n: nat): seq<ValidationError> {
    Collect(NodeFaults(structure, ctx), n)
  }

  function NodeErrors(structure: seq<OutlineNode>, ctx: SourceContext): seq<ValidationError> {
    NodeErrorsUpTo(structure, ctx, |structure|)
  }

  predicate NodeOk(structure: seq<OutlineNode>, ctx: SourceContext, i: nat)
    requires i < |structure|
  {
    RangeOk(structure[i].byteRange, ctx) && !RepeatsId(structure, i) && structure[i].depth == KindDepth(structure[i].kind)
  }

  lemma NoNodeErrorsAt(structure: seq<OutlineNode>, ctx: SourceContext, i: nat)
    requires ctx.Valid() && i < |structure|
    ensures NodeErrorsAt(structure, ctx, i) == [] <==> NodeOk(structure, ctx, i)
  {
    RangeErrorsFindEveryFault(AtField(NodePath(i), ByteRangeField), structure[i].byteRange, ctx);
  }

  lemma NoNodeErrors(structure: seq<OutlineNode>, ctx: SourceContext)
    requires ctx.Valid()
    ensures NodeErrors(structure, ctx) == [] <==> forall i :: 0 <= i < |structure| ==> NodeOk(structure, ctx, i)
  {
    var faults := NodeFaults(structure, ctx);
    CollectsNothing(faults, |structure|);
    forall i: nat | i < |structure|
      ensures faults(i) == [] <==> NodeOk(structure, ctx, i)
    {
      NoNodeErrorsAt(structure, ctx, i);
    }
  }

  predicate SeenIds(structure: seq<OutlineNode>, n: nat, seen: set<i32>)
    requires n <= |structure|
  {
    seen == set i | 0 <= i < n :: structure[i].nodeId
  }

  /** The faults of one node, against the ids seen before it, and its place in the index. */
  method ValidateNode(structure: seq<OutlineNode>, ctx: SourceContext, i: nat, seen: set<i32>, indices: map<i32, nat>)
    returns (seen': set<i32>, indices': map<i32, nat>, errors: seq<ValidationError>)
    requires ctx.Valid() && i < |structure| && SeenIds(structure, i, seen) && Indexes(structure, i, indices)
    ensures errors == NodeErrorsAt(structure, ctx, i)
    ensures SeenIds(structure, i + 1, seen') && Indexes(structure, i + 1, indices')
  {
    var node := structure[i];
    errors := CheckRange(AtField(NodePath(i), ByteRangeField), node.byteRange, ctx);
    if node.nodeId in seen {
      errors := errors + [DuplicateNodeId(NodePath(i), node.nodeId)];
    }
    seen' := seen + {node.nodeId};
    indices' := if node.nodeId in indices then indices else indices[node.nodeId := i];
    if node.depth != KindDepth(node.kind) {
      errors := errors + [InvalidOutlineDepth(AtField(NodePath(i), DepthField), node.depth, KindDepth(node.kind))];
    }
  }

  lemma NextNodeErrors(structure: seq<OutlineNode>, ctx: SourceContext, i: nat)
    requires i < |structure|
    ensures NodeErrorsUpTo(structure, ctx, i + 1) == NodeErrorsUpTo(structure, ctx, i) + NodeErrorsAt(structure, ctx, i)
  {
  }

  /** Checks every node and maps each id to its first node. */
  method ValidateStructureNodes(structure: seq<OutlineNode>, ctx: SourceContext)
    returns (indices: map<i32, nat>, errors: seq<ValidationError>)
    requires ctx.Valid()
    ensures Indexes(structure, |structure|, indices)
    ensures errors == NodeErrors(structure, ctx)
  {
    errors := [];
    indices := map[];
    var seen: set<i32> := {};
    for i := 0 to |structure|
      invariant errors == NodeErrorsUpTo(structure, ctx, i)
      invariant SeenIds(structure, i, seen)
      invariant Indexes(structure, i, indices)
    {
      var faults;
      seen, indices, faults := ValidateNode(structure, ctx, i, seen, indices);
      errors := errors + faults;
      NextNodeErrors(structure, ctx, i);
    }
  }

  // ----- Edges -----

  /** The first of the first `n` nodes that lists `child`. */
  function FirstParent(structure: seq<OutlineNode>, child: i32, n: nat): (r: Option<nat>)
    requires n <= |structure|
    ensures r.Some? ==> r.value < n && child in structure[r.value].childNodeIds
  {
    if n == 0 then None
    else
      var earlier := FirstParent(structure, child, n - 1);
      if earlier.Some? then earlier
      else if child in structure[n - 1].childNodeIds then Some(n - 1)
      else None
  }

  lemma {:induction false} FirstParentExists(structure: seq<OutlineNode>, child: i32, p: nat, n: nat)
    requires p < n <= |structure| && child in structure[p].childNodeIds
    ensures FirstParent(structure, child, n).Some? && FirstParent(structure, child, n).value <= p
    decreases n
  {
    if p < n - 1 {
      FirstParentExists(structure, child, p, n - 1);
    }
  }

  predicate Within(inner: ByteRange, outer: ByteRange) {
    outer.startUtf8 <= inner.startUtf8 && inner.endUtf8 <= outer.endUtf8
  }

  /** The first parent in wire order of the child on edge `j` of node `i`, among the nodes up to `i`. */
  function OwnerOf(structure: seq<OutlineNode>, i: nat, j: nat): nat
    requires i < |structure| && j < |structure[i].childNodeIds|
  {
    FirstParentExists(structure, structure[i].childNodeIds[j], i, i + 1);
    FirstParent(structure, structure[i].childNodeIds[j], i + 1).value
  }

  function EdgeErrorsAt(structure: seq<OutlineNode>, i: nat, j: nat): seq<ValidationError>
    requires i < |structure| && j < |structure[i].childNodeIds|
  {
    var node, child, path := structure[i], structure[i].childNodeIds[j], EdgePath(Edge(i, j));
    match Resolve(structure, child)
    case None => [DanglingChildRef(path, child)]
    case Some(c) =>
      FirstParentExists(structure, child, i, i + 1);
      FirstWithIdIsFirst(structure, child, |structure|);
      var owner := structure[OwnerOf(structure, i, j)].nodeId;
      (if owner != node.nodeId then [MultipleStructureParents(path, child, owner, node.nodeId)] else [])
      + (if Within(structure[c].byteRange, node.byteRange) then []
         else [ChildRangeOutsideParent(path, node.nodeId, child)])
  }

  function EdgeFaultsOf(structure: seq<OutlineNode>, i: nat): nat -> seq<ValidationError>
    requires i < |structure|
  {
    (j: nat) => if j < |structure[i].childNodeIds| then EdgeErrorsAt(structure, i, j) else []
  }

  function NodeEdgeErrors(structure: seq<OutlineNode>, i: nat): seq<ValidationError>
    requires i < |structure|
  {
    Collect(EdgeFaultsOf(structure, i), |structure[i].childNodeIds|)
  }

  function EdgeFaults(structure: seq<OutlineNode>): nat -> seq<ValidationError> {
    (i: nat) => if i < |structure| then NodeEdgeErrors(structure, i) else []
  }

  function EdgeErrorsUpTo(structure: seq<OutlineNode>, n: nat): seq<ValidationError> {
    Collect(EdgeFaults(structure), n)
  }

  function EdgeErrors(structure: seq<OutlineNode>): seq<ValidationError> {
    EdgeErrorsUpTo(structure, |structure|)
  }

  lemma NextEdgeErrors(structure: seq<OutlineNode>, i: nat)
    requires i < |structure|
    ensures EdgeErrorsUpTo(structure, i + 1) == EdgeErrorsUpTo(structure, i) + NodeEdgeErrors(structure, i)
  {
  }

  /** The child resolves to a node inside this one, and no earlier node of another id lists it. */
  predicate EdgeOk(structure: seq<OutlineNode>, i: nat, j: nat)
    requires i < |structure| && j < |structure[i].childNodeIds|
  {
    && Resolve(structure, structure[i].childNodeIds[j]).Some?
    && Resolve(structure, structure[i].childNodeIds[j]).value < |structure|
    && Within(structure[Resolve(structure, structure[i].childNodeIds[j]).value].byteRange, structure[i].byteRange)
    && structure[OwnerOf(structure, i, j)].nodeId == structure[i].nodeId
  }

  predicate EdgesOk(structure: seq<OutlineNode>, i: nat)
    requires i < |structure|
  {
    forall j :: 0 <= j < |structure[i].childNodeIds| ==> EdgeOk(structure, i, j)
  }

  lemma NoEdgeErrorsAt(structure: seq<OutlineNode>, i: nat, j: nat)
    requires i < |structure| && j < |structure[i].childNodeIds|
    ensures EdgeErrorsAt(structure, i, j) == [] <==> EdgeOk(structure, i, j)
  {
    FirstWithIdIsFirst(structure, structure[i].childNodeIds[j], |structure|);
  }

  lemma NoEdgeErrorsOf(structure: seq<OutlineNode>, i: nat)
    requires i < |structure|
    ensures NodeEdgeErrors(structure, i) == [] <==> EdgesOk(structure, i)
  {
    var faults := EdgeFaultsOf(structure, i);
    CollectsNothing(faults, |structure[i].childNodeIds|);
    forall j: nat | j < |structure[i].childNodeIds|
      ensures faults(j) == [] <==> EdgeOk(structure, i, j)
    {
      NoEdgeErrorsAt(structure, i, j);
    }
  }

  lemma NoEdgeErrors(structure: seq<OutlineNode>)
    ensures EdgeErrors(structure) == [] <==> forall i :: 0 <= i < |structure| ==> EdgesOk(structure, i)
  {
    var faults := EdgeFaults(structure);
    CollectsNothing(faults, |structure|);
    forall i: nat | i < |structure|
      ensures faults(i) == [] <==> EdgesOk(structure, i)
    {
      NoEdgeErrorsOf(structure, i);
    }
  }

  // ----- Parents seen so far -----

  /** The parent recorded for `child` once the first `i` nodes and the first `j` edges of node `i` are done. */
  function Recorded(structure: seq<OutlineNode>, child: i32, i: nat, j: nat): Option<i32>
    requires i < |structure| && j <= |structure[i].childNodeIds|
  {
    if Resolve(structure, child).None? then None
    else
      match FirstParent(structure, child, i)
      case Some(p) => Some(structure[p].nodeId)
      case None => if child in structure[i].childNodeIds[..j] then Some(structure[i].nodeId) else None
  }

  predicate Records(structure: seq<OutlineNode>, i: nat, j: nat, parents: map<i32, i32>)
    requires i < |structure| && j <= |structure[i].childNodeIds|
  {
    forall child: i32 :: (if child in parents then Some(parents[child]) else None) == Recorded(structure, child, i, j)
  }

  /** The child of edge `j` of node `i`, against the parents recorded before it. */
  method ValidateEdge(structure: seq<OutlineNode>, indices: map<i32, nat>, i: nat, j: nat, parents: map<i32, i32>)
    returns (parents': map<i32, i32>, errors: seq<ValidationError>)
    requires Indexes(structure, |structure|, indices)
    requires i < |structure| && j < |structure[i].childNodeIds| && Records(structure, i, j, parents)
    ensures errors == EdgeErrorsAt(structure, i, j)
    ensures Records(structure, i, j + 1, parents')
  {
    var node, child := structure[i], structure[i].childNodeIds[j];
    var path := EdgePath(Edge(i, j));
    assert node.childNodeIds[..j + 1] == node.childNodeIds[..j] + [child];
    FirstWithIdIsFirst(structure, child, |structure|);
    if child !in indices {
      return parents, [DanglingChildRef(path, child)];
    }
    parents', errors := parents, [];
    if child in parents {
      var firstParent := parents[child];
      if firstParent != node.nodeId {
        errors := [MultipleStructureParents(path, child, firstParent, node.nodeId)];
      }
    } else {
      parents' := parents[child := node.nodeId];
    }
    var range := structure[indices[child]].byteRange;
    if range.startUtf8 < node.byteRange.startUtf8 || range.endUtf8 > node.byteRange.endUtf8 {
      errors := errors + [ChildRangeOutsideParent(path, node.nodeId, child)];
    }
  }

  /** Every edge of one node, in order. */
  method ValidateEdgesOf(structure: seq<OutlineNode>, indices: map<i32, nat>, i: nat, parents: map<i32, i32>)
    returns (parents': map<i32, i32>, errors: seq<ValidationError>)
    requires Indexes(structure, |structure|, indices)
    requires i < |structure| && Records(structure, i, 0, parents)
    ensures errors == NodeEdgeErrors(structure, i)
    ensures Records(structure, i, |structure[i].childNodeIds|, parents')
  {
    parents', errors := parents, [];
    for j := 0 to |structure[i].childNodeIds|
      invariant errors == Collect(EdgeFaultsOf(structure, i), j)
      invariant Records(structure, i, j, parents')
    {
      var faults;
      parents', faults := ValidateEdge(structure, indices, i, j, parents');
      errors := errors + faults;
    }
  }

  lemma NextNode(structure: seq<OutlineNode>, i: nat, parents: map<i32, i32>)
    requires i + 1 < |structure| && Records(structure, i, |structure[i].childNodeIds|, parents)
    ensures Records(structure, i + 1, 0, parents)
  {
    var ids := structure[i].childNodeIds;
    assert ids[..|ids|] == ids;
    forall child: i32
      ensures Recorded(structure, child, i, |ids|) == Recorded(structure, child, i + 1, 0)
    {
    }
  }

  method ValidateStructureEdges(structure: seq<OutlineNode>, indices: map<i32, nat>)
    returns (errors: seq<ValidationError>)
    requires Indexes(structure, |structure|, indices)
    ensures errors == EdgeErrors(structure)
  {
    errors := [];
    var parents: map<i32, i32> := map[];
    for i := 0 to |structure|
      invariant errors == EdgeErrorsUpTo(structure, i)
      invariant i < |structure| ==> Records(structure, i, 0, parents)
    {
      var faults;
      parents, faults := ValidateEdgesOf(structure, indices, i, parents);
      errors := errors + faults;
      NextEdgeErrors(structure, i);
      if i + 1 < |structure| {
        NextNode(structure, i, parents);
      }
    }
  }

  // ----- The whole outline -----

  /** Nodes and edges all check out and no chain of children returns to its start. */
  ghost predicate OutlineOk(structure: seq<OutlineNode>, ctx: SourceContext) {
    && (forall i :: 0 <= i < |structure| ==> NodeOk(structure, ctx, i))
    && (forall i :: 0 <= i < |structure| ==> EdgesOk(structure, i))
    && Acyclic(GraphOf(structure), Edges(GraphOf(structure)))
  }

  function StructureErrors(structure: seq<OutlineNode>, ctx: SourceContext): seq<ValidationError> {
    NodeErrors(structure, ctx) + EdgeErrors(structure) + OutlineCycleErrors(structure)
  }

  method ValidateStructureGraph(structure: seq<OutlineNode>, ctx: SourceContext)
    returns (errors: seq<ValidationError>)
    requires ctx.Valid()
    ensures errors == StructureErrors(structure, ctx)
    ensures errors == [] <==> OutlineOk(structure, ctx)
  {
    var indices;
    indices, errors := ValidateStructureNodes(structure, ctx);
    var edgeErrors := ValidateStructureEdges(structure, indices);
    var cycles := ValidateStructureCycles(structure, indices);
    errors := errors + edgeErrors + cycles;
    NoNodeErrors(structure, ctx);
    NoEdgeErrors(structure);
  }
}
