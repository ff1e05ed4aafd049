/**
  The outline graph of a received document and the iterative search that rejects
  its cycles. The outline is untrusted: ids may repeat, children may be missing
  and nothing says the graph is a tree. The explicit stack computes exactly the
  recursive search, so what is proved of that search holds of the errors.
 */
module StructureCycles {
  import opened Text
  import opened IrDocument
  import opened CycleSearch

  // ----- Resolving child ids -----

  /** The first of the first `n` nodes with this id. */
  function FirstWithId(structure: seq<OutlineNode>, id: i32, n: nat): Option<nat>
    requires n <= |structure|
  {
    if n == 0 then None
    else
      var earlier := FirstWithId(structure, id, n - 1);
      if earlier.Some? then earlier
      else if structure[n - 1].nodeId == id then Some(n - 1)
      else None
  }

  function Resolve(structure: seq<OutlineNode>, id: i32): Option<nat> {
    FirstWithId(structure, id, |structure|)
  }

  lemma {:induction false} FirstWithIdIsFirst(structure: seq<OutlineNode>, id: i32, n: nat)
    requires n <= |structure|
    ensures match FirstWithId(structure, id, n)
            case None => forall k :: 0 <= k < n ==> structure[k].nodeId != id
            case Some(i) =>
              i < n && structure[i].nodeId == id && forall k :: 0 <= k < i ==> structure[k].nodeId != id
    decreases n
  {
    if n > 0 {
      FirstWithIdIsFirst(structure, id, n - 1);
    }
  }

  /** A map from every id among the first `n` nodes to its first node. */
  predicate Indexes(structure: seq<OutlineNode>, n: nat, indices: map<i32, nat>)
    requires n <= |structure|
  {
    forall id: i32 ::
      (if id in indices then Some(indices[id]) else None) == FirstWithId(structure, id, n)
  }

  /** The out-edges of one node, resolved. */
  function OutEdges(structure: seq<OutlineNode>, i: nat): (edges: seq<Option<nat>>)
    requires i < |structure|
  {
    var ids := structure[i].childNodeIds;
    seq(|ids|, j requires 0 <= j < |ids| => Resolve(structure, ids[j]))
  }

  function GraphOf(structure: seq<OutlineNode>): (g: Graph) {
    seq(|structure|, i requires 0 <= i < |structure| => OutEdges(structure, i))
  }

  lemma GraphIsGraph(structure: seq<OutlineNode>)
    ensures IsGraph(GraphOf(structure))
  {
    var g: Graph := GraphOf(structure);
    forall x: nat, k: nat | x < |g| && k < |g[x]| && g[x][k].Some?
      ensures g[x][k].value < |g|
    {
      FirstWithIdIsFirst(structure, structure[x].childNodeIds[k], |structure|);
    }
  }

  // ----- The errors of a search -----

  predicate InRange(structure: seq<OutlineNode>, e: Edge) {
    e.node < |structure| && e.index < |structure[e.node].childNodeIds|
  }

  function EdgePath(e: Edge): Path {
    [Field(StructureField), Index(e.node), Field(ChildNodeIdsField), Index(e.index)]
  }

  function CycleError(structure: seq<OutlineNode>, e: Edge): ValidationError
    requires InRange(structure, e)
  {
    StructureCycle(EdgePath(e), structure[e.node].nodeId, structure[e.node].childNodeIds[e.index])
  }

  function CycleErrors(structure: seq<OutlineNode>, reported: seq<Edge>): seq<ValidationError>
    requires forall e <- reported :: InRange(structure, e)
  {
    seq(|reported|, k requires 0 <= k < |reported| => CycleError(structure, reported[k]))
  }

  /** The errors of the whole search. */
  function OutlineCycleErrors(structure: seq<OutlineNode>): seq<ValidationError> {
    GraphIsGraph(structure);
    SearchIsSound(GraphOf(structure));
    CycleErrors(structure, SearchAll(GraphOf(structure)).reported)
  }

  // ----- The stack -----

  /** A node on the current path and the next of its edges to examine. */
  datatype Frame = Frame(node: nat, next: nat)

  predicate Frames(g: Graph, stack: seq<Frame>) {
    forall f <- stack :: f.node < |g| && f.next <= |g[f.node]|
  }

  function Nodes(stack: seq<Frame>): (path: seq<nat>)
    ensures |path| == |stack|
    ensures forall i :: 0 <= i < |stack| ==> path[i] == stack[i].node
  {
    seq(|stack|, i requires 0 <= i < |stack| => stack[i].node)
  }

  /** What the recursive search makes of the frames still on the stack. */
  function Unwind(g: Graph, stack: seq<Frame>, s: Search): Search
    requires IsGraph(g) && Frames(g, stack)
    decreases |stack|
  {
    if stack == [] then s
    else
      var n := |stack| - 1;
      Unwind(g, stack[..n], Visit(g, Nodes(stack), stack[n].next, s))
  }

  function Remaining(g: Graph, stack: seq<Frame>): nat
    requires Frames(g, stack)
    decreases |stack|
  {
    if stack == [] then 0
    else
      var n := |stack| - 1;
      Remaining(g, stack[..n]) + |g[stack[n].node]| - stack[n].next
  }

  lemma TopFrame(g: Graph, rest: seq<Frame>, f: Frame, s: Search)
    requires IsGraph(g) && Frames(g, rest) && f.node < |g| && f.next <= |g[f.node]|
    ensures Nodes(rest + [f]) == Nodes(rest) + [f.node]
    ensures Unwind(g, rest + [f], s) == Unwind(g, rest, Visit(g, Nodes(rest) + [f.node], f.next, s))
    ensures Remaining(g, rest + [f]) == Remaining(g, rest) + |g[f.node]| - f.next
  {
    var stack := rest + [f];
    assert stack[..|stack| - 1] == rest;
    assert Nodes(stack) == Nodes(rest) + [f.node];
  }

  lemma FirstFrame(g: Graph, root: nat, s: Search)
    requires IsGraph(g) && root < |g|
    ensures Nodes([Frame(root, 0)]) == [root]
    ensures Unwind(g, [Frame(root, 0)], s) == Visit(g, [root], 0, s)
  {
    assert [] + [Frame(root, 0)] == [Frame(root, 0)] && Nodes([]) + [root] == [root];
    TopFrame(g, [], Frame(root, 0), s);
  }

  lemma PopStep(g: Graph, rest: seq<Frame>, u: nat, s: Search)
    requires IsGraph(g) && Frames(g, rest) && u < |g|
    ensures var stack := rest + [Frame(u, |g[u]|)];
            && Unwind(g, stack, s) == Unwind(g, rest, s.(finished := s.finished + [u]))
            && White(g, Nodes(rest), s.finished + [u]) == White(g, Nodes(stack), s.finished)
            && Remaining(g, rest) == Remaining(g, stack)
  {
    TopFrame(g, rest, Frame(u, |g[u]|), s);
  }

  /** An edge that resolves to nothing, to a finished node or to the path only moves to the next edge. */
  lemma NextStep(g: Graph, rest: seq<Frame>, u: nat, j: nat, s: Search, s': Search)
    requires IsGraph(g) && Frames(g, rest) && u < |g| && j < |g[u]|
    requires var path := Nodes(rest) + [u];
             if g[u][j].None? || g[u][j].value in s.finished then s' == Examine(s, Edge(u, j))
             else g[u][j].value in path && s' == Examine(s, Edge(u, j)).(reported := s.reported + [Edge(u, j)])
    ensures var stack, stack' := rest + [Frame(u, j)], rest + [Frame(u, j + 1)];
            && Unwind(g, stack, s) == Unwind(g, stack', s')
            && Nodes(stack') == Nodes(stack)
            && Remaining(g, stack') < Remaining(g, stack)
  {
    TopFrame(g, rest, Frame(u, j), s);
    TopFrame(g, rest, Frame(u, j + 1), s');
  }

  lemma PushUnwinds(g: Graph, rest: seq<Frame>, u: nat, j: nat, v: nat, s: Search)
    requires IsGraph(g) && Frames(g, rest) && u < |g| && j < |g[u]| && g[u][j] == Some(v) && v < |g|
    requires v !in s.finished && v !in Nodes(rest) + [u]
    ensures Unwind(g, rest + [Frame(u, j)], s)
            == Unwind(g, rest + [Frame(u, j + 1)] + [Frame(v, 0)], Follow(s, Edge(u, j)))
    ensures Nodes(rest + [Frame(u, j + 1)] + [Frame(v, 0)]) == Nodes(rest + [Frame(u, j)]) + [v]
  {
    var middle := rest + [Frame(u, j + 1)];
    TopFrame(g, rest, Frame(u, j), s);
    TopFrame(g, middle, Frame(v, 0), Follow(s, Edge(u, j)));
    TopFrame(g, rest, Frame(u, j + 1), Visit(g, Nodes(middle) + [v], 0, Follow(s, Edge(u, j))));
  }

  /** An edge to a white node is followed. */
  lemma PushStep(g: Graph, rest: seq<Frame>, u: nat, j: nat, v: nat, s: Search)
    requires IsGraph(g) && Frames(g, rest) && u < |g| && j < |g[u]| && g[u][j] == Some(v) && v < |g|
    requires v !in s.finished && v !in Nodes(rest) + [u]
    ensures var stack, stack' := rest + [Frame(u, j)], rest + [Frame(u, j + 1), Frame(v, 0)];
            && Unwind(g, stack, s) == Unwind(g, stack', Follow(s, Edge(u, j)))
            && Nodes(stack') == Nodes(stack) + [v]
            && White(g, Nodes(stack'), s.finished) < White(g, Nodes(stack), s.finished)
  {
    PushUnwinds(g, rest, u, j, v, s);
    assert rest + [Frame(u, j + 1), Frame(v, 0)] == rest + [Frame(u, j + 1)] + [Frame(v, 0)];
    assert Nodes(rest + [Frame(u, j)]) == Nodes(rest) + [u];
    assert v in White(g, Nodes(rest) + [u], s.finished);
  }

  // ----- The method -----

  datatype Color = Unseen | Active | Done

  predicate Colored(g: Graph, colors: seq<Color>, path: seq<nat>, finished: seq<nat>) {
    && |colors| == |g|
    && (forall x :: 0 <= x < |g| ==> (colors[x] == Active <==> x in path))
    && (forall x :: 0 <= x < |g| ==> (colors[x] == Done <==> x in finished))
  }

  lemma ColorDone(g: Graph, colors: seq<Color>, rest: seq<nat>, u: nat, finished: seq<nat>)
    requires Colored(g, colors, rest + [u], finished) && Distinct(rest + [u]) && u < |g|
    ensures Distinct(rest) && Colored(g, colors[u := Done], rest, finished + [u])
  {
    var path := rest + [u];
    assert forall i :: 0 <= i < |rest| ==> path[i] == rest[i];
    assert path[|rest|] == u;
    forall x | 0 <= x < |g|
      ensures (colors[u := Done][x] == Active <==> x in rest) && (colors[u := Done][x] == Done <==> x in finished + [u])
    {
      assert x in path <==> x in rest || x == u;
    }
  }

  lemma ColorActive(g: Graph, colors: seq<Color>, path: seq<nat>, v: nat, finished: seq<nat>)
    requires Colored(g, colors, path, finished) && Distinct(path) && v < |g| && colors[v] == Unseen
    ensures v !in path && v !in finished
    ensures Distinct(path + [v]) && Colored(g, colors[v := Active], path + [v], finished)
  {
  }

  /** The errors so far are those of the search so far. */
  predicate Reports(structure: seq<OutlineNode>, s: Search, errors: seq<ValidationError>) {
    (forall e <- s.reported :: InRange(structure, e)) && errors == CycleErrors(structure, s.reported)
  }

  lemma ReportsNext(structure: seq<OutlineNode>, s: Search, errors: seq<ValidationError>, e: Edge)
    requires Reports(structure, s, errors) && InRange(structure, e)
    ensures Reports(structure, Examine(s, e).(reported := s.reported + [e]), errors + [CycleError(structure, e)])
  {
  }

  /** Stack and colours agree with a search whose path is the stack's nodes. */
  predicate Tracks(g: Graph, colors: seq<Color>, stack: seq<Frame>, finished: seq<nat>) {
    Frames(g, stack) && Distinct(Nodes(stack)) && Colored(g, colors, Nodes(stack), finished)
  }

  /** The measure of the search: unseen nodes, then edges left on the stack, then frames. */
  predicate Descends(g: Graph, stack: seq<Frame>, s: Search, stack': seq<Frame>, s': Search)
    requires Frames(g, stack) && Frames(g, stack')
  {
    var white, white' := White(g, Nodes(stack), s.finished), White(g, Nodes(stack'), s'.finished);
    || white' < white
    || (white' == white && Remaining(g, stack') < Remaining(g, stack))
    || (white' == white && Remaining(g, stack') == Remaining(g, stack) && |stack'| < |stack|)
  }

  lemma TracksPop(g: Graph, colors: seq<Color>, rest: seq<Frame>, u: nat, s: Search)
    requires IsGraph(g) && u < |g| && Tracks(g, colors, rest + [Frame(u, |g[u]|)], s.finished)
    ensures Tracks(g, colors[u := Done], rest, s.finished + [u])
  {
    var stack := rest + [Frame(u, |g[u]|)];
    assert forall f <- rest :: f in stack;
    TopFrame(g, rest, Frame(u, |g[u]|), s);
    ColorDone(g, colors, Nodes(rest), u, s.finished);
  }

  lemma TracksNext(g: Graph, colors: seq<Color>, rest: seq<Frame>, u: nat, j: nat, s: Search)
    requires IsGraph(g) && u < |g| && j < |g[u]| && Tracks(g, colors, rest + [Frame(u, j)], s.finished)
    ensures Frames(g, rest) && Nodes(rest + [Frame(u, j)]) == Nodes(rest) + [u]
    ensures Tracks(g, colors, rest + [Frame(u, j + 1)], s.finished)
  {
    var stack := rest + [Frame(u, j)];
    assert forall f <- rest :: f in stack;
    TopFrame(g, rest, Frame(u, j), s);
    TopFrame(g, rest, Frame(u, j + 1), s);
  }

  lemma TracksPush(g: Graph, colors: seq<Color>, rest: seq<Frame>, u: nat, j: nat, v: nat, s: Search)
    requires IsGraph(g) && u < |g| && j < |g[u]| && Tracks(g, colors, rest + [Frame(u, j)], s.finished)
    requires v < |g| && colors[v] == Unseen
    ensures Frames(g, rest) && v !in s.finished && v !in Nodes(rest) + [u]
    ensures Tracks(g, colors[v := Active], rest + [Frame(u, j + 1), Frame(v, 0)], s.finished)
  {
    var middle := rest + [Frame(u, j + 1)];
    TracksNext(g, colors, rest, u, j, s);
    TopFrame(g, rest, Frame(u, j + 1), s);
    TopFrame(g, middle, Frame(v, 0), s);
    assert middle + [Frame(v, 0)] == rest + [Frame(u, j + 1), Frame(v, 0)];
    ColorActive(g, colors, Nodes(middle), v, s.finished);
  }

  /** The node on top of the stack has no edge left. */
  method FinishNode(structure: seq<OutlineNode>, colors: array<Color>, rest: seq<Frame>, u: nat, ghost s: Search)
    returns (ghost s': Search)
    modifies colors
    requires IsGraph(GraphOf(structure)) && u < |structure|
    requires Tracks(GraphOf(structure), colors[..], rest + [Frame(u, |structure[u].childNodeIds|)], s.finished)
    ensures s' == s.(finished := s.finished + [u])
    ensures Tracks(GraphOf(structure), colors[..], rest, s'.finished)
    ensures var stack := rest + [Frame(u, |structure[u].childNodeIds|)];
            && Unwind(GraphOf(structure), rest, s') == Unwind(GraphOf(structure), stack, s)
            && Descends(GraphOf(structure), stack, s, rest, s')
  {
    ghost var g := GraphOf(structure);
    TracksPop(g, colors[..], rest, u, s);
    PopStep(g, rest, u, s);
    colors[u] := Done;
    s' := s.(finished := s.finished + [u]);
  }

  /** One edge of the node on top of the stack: follow it, report it or pass over it. */
  method ExamineEdge(structure: seq<OutlineNode>, indices: map<i32, nat>, colors: array<Color>,
                     rest: seq<Frame>, u: nat, j: nat, errors: seq<ValidationError>, ghost s: Search)
    returns (stack': seq<Frame>, errors': seq<ValidationError>, ghost s': Search)
    modifies colors
    requires Indexes(structure, |structure|, indices) && IsGraph(GraphOf(structure))
    requires u < |structure| && j < |structure[u].childNodeIds|
    requires Tracks(GraphOf(structure), colors[..], rest + [Frame(u, j)], s.finished)
    requires Reports(structure, s, errors)
    ensures Tracks(GraphOf(structure), colors[..], stack', s'.finished)
    ensures Reports(structure, s', errors')
    ensures Unwind(GraphOf(structure), stack', s') == Unwind(GraphOf(structure), rest + [Frame(u, j)], s)
    ensures Descends(GraphOf(structure), rest + [Frame(u, j)], s, stack', s')
  {
    ghost var g := GraphOf(structure);
    var e := Edge(u, j);
    assert InRange(structure, e);
    var child := structure[u].childNodeIds[j];
    TracksNext(g, colors[..], rest, u, j, s);
    stack', errors', s' := rest + [Frame(u, j + 1)], errors, Examine(s, e);
    if child !in indices {
      NextStep(g, rest, u, j, s, s');
      return;
    }
    var v := indices[child];
    assert g[u][j] == Some(v);
    match colors[v] {
      case Unseen =>
        TracksPush(g, colors[..], rest, u, j, v, s);
        PushStep(g, rest, u, j, v, s);
        colors[v] := Active;
        stack', s' := rest + [Frame(u, j + 1), Frame(v, 0)], Follow(s, e);
      case Active =>
        ReportsNext(structure, s, errors, e);
        errors', s' := errors + [CycleError(structure, e)], s'.(reported := s.reported + [e]);
        NextStep(g, rest, u, j, s, s');
      case Done =>
        NextStep(g, rest, u, j, s, s');
    }
  }

  /** One round of the search loop. */
  method SearchStep(structure: seq<OutlineNode>, indices: map<i32, nat>, colors: array<Color>, stack: seq<Frame>,
                    errors: seq<ValidationError>, ghost s: Search)
    returns (stack': seq<Frame>, errors': seq<ValidationError>, ghost s': Search)
    modifies colors
    requires Indexes(structure, |structure|, indices) && IsGraph(GraphOf(structure)) && stack != []
    requires Tracks(GraphOf(structure), colors[..], stack, s.finished) && Reports(structure, s, errors)
    ensures Tracks(GraphOf(structure), colors[..], stack', s'.finished) && Reports(structure, s', errors')
    ensures Unwind(GraphOf(structure), stack', s') == Unwind(GraphOf(structure), stack, s)
    ensures Descends(GraphOf(structure), stack, s, stack', s')
  {
    var rest, u, j := stack[..|stack| - 1], stack[|stack| - 1].node, stack[|stack| - 1].next;
    assert stack == rest + [Frame(u, j)];
    if j == |structure[u].childNodeIds| {
      s' := FinishNode(structure, colors, rest, u, s);
      stack', errors' := rest, errors;
    } else {
      stack', errors', s' := ExamineEdge(structure, indices, colors, rest, u, j, errors, s);
    }
  }

  /** The search from one unseen root, with an explicit stack in place of the call stack. */
  method SearchFrom(structure: seq<OutlineNode>, indices: map<i32, nat>, colors: array<Color>, root: nat,
                    errors: seq<ValidationError>, ghost s: Search)
    returns (errors': seq<ValidationError>)
    modifies colors
    requires Indexes(structure, |structure|, indices) && IsGraph(GraphOf(structure))
    requires root < |structure| == colors.Length && colors[root] == Unseen
    requires Colored(GraphOf(structure), colors[..], [], s.finished)
    requires Reports(structure, s, errors)
    ensures var r := Visit(GraphOf(structure), [root], 0, s);
            Reports(structure, r, errors') && Colored(GraphOf(structure), colors[..], [], r.finished)
  {
    ghost var g := GraphOf(structure);
    ghost var t := s;
    errors' := errors;
    ColorActive(g, colors[..], [], root, s.finished);
    assert [] + [root] == [root];
    colors[root] := Active;
    var stack := [Frame(root, 0)];
    FirstFrame(g, root, s);
    while stack != []
      invariant Tracks(g, colors[..], stack, t.finished) && Reports(structure, t, errors')
      invariant Unwind(g, stack, t) == Visit(g, [root], 0, s)
      decreases White(g, Nodes(stack), t.finished), Remaining(g, stack), |stack|
    {
      stack, errors', t := SearchStep(structure, indices, colors, stack, errors', t);
    }
  }

  /** The cycle validator reports exactly the edges of the recursive search, in its order. */
  method ValidateStructureCycles(structure: seq<OutlineNode>, indices: map<i32, nat>)
    returns (errors: seq<ValidationError>)
    requires Indexes(structure, |structure|, indices)
    ensures errors == OutlineCycleErrors(structure)
    ensures errors == [] <==> Acyclic(GraphOf(structure), Edges(GraphOf(structure)))
  {
    GraphIsGraph(structure);
    ghost var g := GraphOf(structure);
    var colors := new Color[|structure|](i => Unseen);
    errors := [];
    for root := 0 to |structure|
      invariant Colored(g, colors[..], [], VisitRoots(g, root).finished)
      invariant Reports(structure, VisitRoots(g, root), errors)
    {
      if colors[root] != Unseen {
        continue;
      }
      errors := SearchFrom(structure, indices, colors, root, errors, VisitRoots(g, root));
    }
    ReportsExactlyCycles(g);
  }
}
