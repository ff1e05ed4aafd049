/**
  Depth-first search for cycles in a graph given as lists of out-edges, some of
  which may point nowhere. The search colours a node white, grey while it is on
  the current path, and black once finished; it reports each edge into a grey
  node. This module specifies the search recursively and proves what it reports.
 */
module CycleSearch {
  import opened Text

  /** The `index`-th out-edge of `node`. */
  datatype Edge = Edge(node: nat, index: nat)

  /** Out-edges of each node, by target; `None` is an edge that does not resolve. */
  type Graph = seq<seq<Option<nat>>>

  predicate IsGraph(g: Graph) {
    forall x, k :: 0 <= x < |g| && 0 <= k < |g[x]| && g[x][k].Some? ==> g[x][k].value < |g|
  }

  predicate IsEdge(g: Graph, e: Edge) {
    e.node < |g| && e.index < |g[e.node]| && g[e.node][e.index].Some?
  }

  function Target(g: Graph, e: Edge): nat
    requires IsEdge(g, e)
  {
    g[e.node][e.index].value
  }

  // ----- Walks and cycles -----

  predicate Joins(g: Graph, e: Edge, x: nat, y: nat) {
    IsEdge(g, e) && e.node == x && Target(g, e) == y
  }

  /** One of `edges` leads from `x` to `y`. */
  ghost predicate Linked(g: Graph, edges: set<Edge>, x: nat, y: nat) {
    exists e :: e in edges && Joins(g, e, x, y)
  }

  ghost predicate Walk(g: Graph, edges: set<Edge>, p: seq<nat>) {
    p != [] && forall i :: 0 < i < |p| ==> Linked(g, edges, p[i - 1], p[i])
  }

  ghost predicate WalkBetween(g: Graph, edges: set<Edge>, x: nat, y: nat) {
    exists p :: Walk(g, edges, p) && p[0] == x && p[|p| - 1] == y
  }

  ghost predicate Cycle(g: Graph, edges: set<Edge>, p: seq<nat>) {
    |p| > 1 && Walk(g, edges, p) && p[0] == p[|p| - 1]
  }

  ghost predicate Acyclic(g: Graph, edges: set<Edge>) {
    forall p :: !Cycle(g, edges, p)
  }

  /** Every edge of the graph that resolves. */
  function Edges(g: Graph): set<Edge> {
    set x, k | 0 <= x < |g| && 0 <= k < |g[x]| && g[x][k].Some? :: Edge(x, k)
  }

  lemma WalkGrows(g: Graph, edges: set<Edge>, more: set<Edge>, x: nat, y: nat)
    requires WalkBetween(g, edges, x, y) && edges <= more
    ensures WalkBetween(g, more, x, y)
  {
    var p :| Walk(g, edges, p) && p[0] == x && p[|p| - 1] == y;
    forall i | 0 < i < |p|
      ensures Linked(g, more, p[i - 1], p[i])
    {
      assert Linked(g, edges, p[i - 1], p[i]);
    }
    assert Walk(g, more, p);
  }

  // ----- The search -----

  /** Nodes finished in order, edges examined in order, edges reported in order, and edges followed. */
  datatype Search = Search(finished: seq<nat>, examined: seq<Edge>, reported: seq<Edge>, followed: set<Edge>)

  const NOTHING_YET := Search([], [], [], {})

  /** Neither finished nor on the path. */
  function White(g: Graph, path: seq<nat>, finished: seq<nat>): set<nat> {
    set x | 0 <= x < |g| && x !in path && x !in finished
  }

  /** The search of the last node of `path` from its edge `j` on, with the rest of the path waiting. */
  function Visit(g: Graph, path: seq<nat>, j: nat, s: Search): (r: Search)
    requires IsGraph(g) && path != [] && path[|path| - 1] < |g|
    ensures s.finished <= r.finished
    decreases White(g, path, s.finished), |g[path[|path| - 1]]| - j
  {
    var u := path[|path| - 1];
    var e := Edge(u, j);
    var s' := s.(examined := s.examined + [e]);
    if j >= |g[u]| then s.(finished := s.finished + [u])
    else if g[u][j].None? || g[u][j].value in s.finished then Visit(g, path, j + 1, s')
    else if g[u][j].value in path then Visit(g, path, j + 1, s'.(reported := s.reported + [e]))
    else
      var v := g[u][j].value;
      assert v in White(g, path, s.finished) && v !in White(g, path + [v], s.finished);
      var inner := Visit(g, path + [v], 0, s'.(followed := s.followed + {e}));
      Visit(g, path, j + 1, inner)
  }

  /** The search from every root below `n` in turn. */
  function VisitRoots(g: Graph, n: nat): Search
    requires IsGraph(g) && n <= |g|
  {
    if n == 0 then NOTHING_YET
    else
      var s := VisitRoots(g, n - 1);
      if n - 1 in s.finished then s else Visit(g, [n - 1], 0, s)
  }

  function SearchAll(g: Graph): Search
    requires IsGraph(g)
  {
    VisitRoots(g, |g|)
  }

  // ----- What the search keeps -----

  predicate Distinct<T(==)>(xs: seq<T>) {
    forall i, j :: 0 <= i < j < |xs| ==> xs[i] != xs[j]
  }

  predicate Placed(g: Graph, path: seq<nat>, finished: seq<nat>) {
    && (forall x <- path :: x < |g| && x !in finished)
    && (forall x <- finished :: x < |g|)
    && Distinct(path) && Distinct(finished)
  }

  /** Every edge in the log belongs to a node begun, and an edge reported is never followed. */
  predicate Logged(g: Graph, path: seq<nat>, s: Search) {
    && Distinct(s.examined) && Distinct(s.reported)
    && (forall e <- s.examined :: e.node in path || e.node in s.finished)
    && (forall e <- s.examined :: e.node < |g| && e.index < |g[e.node]|)
    && (forall e <- s.reported :: IsEdge(g, e) && e in s.examined && e !in s.followed)
    && (forall e <- s.followed :: e in s.examined)
  }

  /** The path was made by following edges. */
  ghost predicate PathFollowed(g: Graph, path: seq<nat>, s: Search) {
    path == [] || Walk(g, s.followed, path)
  }

  /** Following edges leads from the target of each reported edge back to its source. */
  ghost predicate Closes(g: Graph, s: Search) {
    forall e <- s.reported :: IsEdge(g, e) && WalkBetween(g, s.followed, Target(g, e), e.node)
  }

  /** An edge examined, and either reported or leading nowhere but to `before`. */
  predicate Settled(g: Graph, s: Search, before: seq<nat>, x: nat, k: nat)
    requires x < |g| && k < |g[x]|
  {
    && Edge(x, k) in s.examined
    && (g[x][k].None? || Edge(x, k) in s.reported || g[x][k].value in before)
  }

  predicate SettledNode(g: Graph, s: Search, before: seq<nat>, x: nat, n: nat) {
    x < |g| && n <= |g[x]| && forall k :: 0 <= k < n ==> Settled(g, s, before, x, k)
  }

  /** Every edge of a finished node is reported or leads to a node finished before it. */
  predicate FinishedInOrder(g: Graph, s: Search) {
    forall i :: 0 <= i < |s.finished| ==>
      s.finished[i] < |g| && SettledNode(g, s, s.finished[..i], s.finished[i], |g[s.finished[i]]|)
  }

  ghost predicate Sound(g: Graph, path: seq<nat>, s: Search) {
    && Placed(g, path, s.finished) && Logged(g, path, s) && PathFollowed(g, path, s)
    && Closes(g, s) && FinishedInOrder(g, s)
  }

  /** The last node of the path has been searched exactly up to its edge `j`. */
  predicate UpTo(g: Graph, path: seq<nat>, j: nat, s: Search) {
    && path != []
    && SettledNode(g, s, s.finished, path[|path| - 1], j)
    && (forall e <- s.examined :: e.node == path[|path| - 1] ==> e.index < j)
  }

  predicate Grows(s: Search, r: Search) {
    && s.finished <= r.finished && s.followed <= r.followed
    && (forall e <- s.examined :: e in r.examined)
    && (forall e <- s.reported :: e in r.reported)
  }

  /** Beyond `s`, only edges of the last node from `j` on and of white nodes were examined, and only those nodes finished. */
  predicate Touches(g: Graph, path: seq<nat>, j: nat, s: Search, r: Search)
    requires path != []
  {
    && (forall e <- r.examined ::
          e in s.examined || (e.node == path[|path| - 1] && e.index >= j) || e.node in White(g, path, s.finished))
    && (forall x <- r.finished :: x in s.finished || x == path[|path| - 1] || x in White(g, path, s.finished))
  }

  // ----- One step at a time -----

  function Examine(s: Search, e: Edge): Search {
    s.(examined := s.examined + [e])
  }

  function Follow(s: Search, e: Edge): Search {
    Examine(s, e).(followed := s.followed + {e})
  }

  lemma SettledNodeGrows(g: Graph, s: Search, r: Search, before: seq<nat>, before': seq<nat>, x: nat, n: nat)
    requires SettledNode(g, s, before, x, n) && Grows(s, r)
    requires forall y <- before :: y in before'
    ensures SettledNode(g, r, before', x, n)
  {
    forall k | 0 <= k < n
      ensures Settled(g, r, before', x, k)
    {
      assert Settled(g, s, before, x, k);
    }
  }

  lemma OrderGrows(g: Graph, s: Search, r: Search)
    requires FinishedInOrder(g, s) && Grows(s, r) && s.finished == r.finished
    ensures FinishedInOrder(g, r)
  {
    forall i | 0 <= i < |r.finished|
      ensures r.finished[i] < |g| && SettledNode(g, r, r.finished[..i], r.finished[i], |g[r.finished[i]]|)
    {
      SettledNodeGrows(g, s, r, s.finished[..i], r.finished[..i], s.finished[i], |g[s.finished[i]]|);
    }
  }

  lemma ClosesGrows(g: Graph, s: Search, r: Search)
    requires Closes(g, s) && Grows(s, r) && s.reported == r.reported
    ensures Closes(g, r)
  {
    forall e <- r.reported
      ensures WalkBetween(g, r.followed, Target(g, e), e.node)
    {
      WalkGrows(g, s.followed, r.followed, Target(g, e), e.node);
    }
  }

  lemma PathGrows(g: Graph, path: seq<nat>, s: Search, r: Search)
    requires PathFollowed(g, path, s) && Grows(s, r)
    ensures PathFollowed(g, path, r)
  {
    forall i | 0 < i < |path|
      ensures Linked(g, r.followed, path[i - 1], path[i])
    {
      assert Linked(g, s.followed, path[i - 1], path[i]);
    }
  }

  /** Examining the next edge of the last node, whatever else it does to the log. */
  lemma ExamineStep(g: Graph, path: seq<nat>, j: nat, s: Search, r: Search)
    requires Sound(g, path, s) && UpTo(g, path, j, s) && j < |g[path[|path| - 1]]|
    requires r.examined == s.examined + [Edge(path[|path| - 1], j)]
    requires Grows(s, r) && r.finished == s.finished
    ensures Distinct(r.examined) && PathFollowed(g, path, r) && FinishedInOrder(g, r)
    ensures SettledNode(g, r, r.finished, path[|path| - 1], j)
    ensures forall e <- r.examined :: e.node == path[|path| - 1] ==> e.index < j + 1
  {
    PathGrows(g, path, s, r);
    OrderGrows(g, s, r);
    SettledNodeGrows(g, s, r, s.finished, r.finished, path[|path| - 1], j);
  }

  lemma SettleNext(g: Graph, s: Search, before: seq<nat>, x: nat, n: nat)
    requires SettledNode(g, s, before, x, n) && n < |g[x]| && Settled(g, s, before, x, n)
    ensures SettledNode(g, s, before, x, n + 1)
  {
  }

  lemma SkipStep(g: Graph, path: seq<nat>, j: nat, s: Search)
    requires Sound(g, path, s) && UpTo(g, path, j, s)
    requires var u := path[|path| - 1]; j < |g[u]| && (g[u][j].None? || g[u][j].value in s.finished)
    ensures Sound(g, path, Examine(s, Edge(path[|path| - 1], j)))
    ensures UpTo(g, path, j + 1, Examine(s, Edge(path[|path| - 1], j)))
  {
    var u := path[|path| - 1];
    var r := Examine(s, Edge(u, j));
    ExamineStep(g, path, j, s, r);
    ClosesGrows(g, s, r);
    SettleNext(g, r, r.finished, u, j);
  }

  lemma PathBack(g: Graph, path: seq<nat>, x: nat, s: Search)
    requires PathFollowed(g, path, s) && x in path
    ensures WalkBetween(g, s.followed, x, path[|path| - 1])
  {
    var i :| 0 <= i < |path| && path[i] == x;
    assert Walk(g, s.followed, path[i..]);
  }

  lemma ReportStep(g: Graph, path: seq<nat>, j: nat, s: Search)
    requires Sound(g, path, s) && UpTo(g, path, j, s)
    requires var u := path[|path| - 1]; j < |g[u]| && g[u][j].Some? && g[u][j].value in path
    ensures var e := Edge(path[|path| - 1], j);
            Sound(g, path, Examine(s, e).(reported := s.reported + [e]))
            && UpTo(g, path, j + 1, Examine(s, e).(reported := s.reported + [e]))
  {
    var u := path[|path| - 1];
    var e := Edge(u, j);
    var r := Examine(s, e).(reported := s.reported + [e]);
    ExamineStep(g, path, j, s, r);
    ClosesGrows(g, s, r.(reported := s.reported));
    PathBack(g, path, Target(g, e), r);
    SettleNext(g, r, r.finished, u, j);
  }

  lemma FollowStep(g: Graph, path: seq<nat>, j: nat, s: Search)
    requires IsGraph(g) && Sound(g, path, s) && UpTo(g, path, j, s)
    requires var u := path[|path| - 1];
             j < |g[u]| && g[u][j].Some? && g[u][j].value !in path && g[u][j].value !in s.finished
    ensures var e := Edge(path[|path| - 1], j);
            var r := Follow(s, e);
            Sound(g, path + [Target(g, e)], r) && UpTo(g, path + [Target(g, e)], 0, r)
  {
    var u := path[|path| - 1];
    var e := Edge(u, j);
    var v := Target(g, e);
    var r := Follow(s, e);
    ExamineStep(g, path, j, s, r);
    ClosesGrows(g, s, r);
    assert Joins(g, e, u, v) && Linked(g, r.followed, u, v);
    forall i | 0 < i < |path + [v]|
      ensures Linked(g, r.followed, (path + [v])[i - 1], (path + [v])[i])
    {
      assert i < |path| ==> Linked(g, r.followed, path[i - 1], path[i]);
    }
  }

  lemma FinishPlaces(g: Graph, rest: seq<nat>, u: nat, finished: seq<nat>)
    requires Placed(g, rest + [u], finished)
    ensures Placed(g, rest, finished + [u])
  {
    var path := rest + [u];
    assert path[|rest|] == u && u in path;
    assert forall i :: 0 <= i < |rest| ==> path[i] == rest[i];
    forall x <- rest
      ensures x < |g| && x !in finished + [u]
    {
      var i :| 0 <= i < |rest| && rest[i] == x;
      assert path[i] == x && x in path;
    }
    forall i | 0 <= i < |finished|
      ensures finished[i] != u
    {
      assert finished[i] in finished;
    }
  }

  lemma FinishOrders(g: Graph, u: nat, s: Search, r: Search)
    requires u < |g| && FinishedInOrder(g, s) && SettledNode(g, s, s.finished, u, |g[u]|)
    requires r == s.(finished := s.finished + [u])
    ensures FinishedInOrder(g, r)
  {
    forall i | 0 <= i < |r.finished|
      ensures r.finished[i] < |g| && SettledNode(g, r, r.finished[..i], r.finished[i], |g[r.finished[i]]|)
    {
      var before := r.finished[..i];
      if i < |s.finished| {
        assert before == s.finished[..i];
        SettledNodeGrows(g, s, r, s.finished[..i], before, s.finished[i], |g[s.finished[i]]|);
      } else {
        assert before == s.finished;
        SettledNodeGrows(g, s, r, s.finished, before, u, |g[u]|);
      }
    }
  }

  lemma PathPrefix(g: Graph, rest: seq<nat>, u: nat, s: Search)
    requires PathFollowed(g, rest + [u], s)
    ensures PathFollowed(g, rest, s)
  {
    var path := rest + [u];
    forall i | 0 < i < |rest|
      ensures Linked(g, s.followed, rest[i - 1], rest[i])
    {
      assert Linked(g, s.followed, path[i - 1], path[i]);
    }
  }

  lemma FinishStep(g: Graph, path: seq<nat>, s: Search)
    requires path != [] && path[|path| - 1] < |g|
    requires Sound(g, path, s) && UpTo(g, path, |g[path[|path| - 1]]|, s)
    ensures Sound(g, path[..|path| - 1], s.(finished := s.finished + [path[|path| - 1]]))
  {
    var u := path[|path| - 1];
    var rest := path[..|path| - 1];
    var r := s.(finished := s.finished + [u]);
    assert path == rest + [u];
    FinishPlaces(g, rest, u, s.finished);
    FinishOrders(g, u, s, r);
    ClosesGrows(g, s, r);
    PathPrefix(g, rest, u, s);
    assert PathFollowed(g, rest, r);
  }

  /** Back from `v`, reached over edge `j`: the edge is settled and the node is ready for its next edge. */
  lemma ReturnStep(g: Graph, path: seq<nat>, j: nat, v: nat, s: Search, r: Search)
    requires path != [] && v !in path
    requires UpTo(g, path + [v], 0, s) && Sound(g, path, r) && Grows(s, r) && Touches(g, path + [v], 0, s, r)
    requires SettledNode(g, s, s.finished, path[|path| - 1], j)
    requires forall e <- s.examined :: e.node == path[|path| - 1] ==> e.index < j + 1
    requires var u := path[|path| - 1];
             j < |g[u]| && g[u][j] == Some(v) && Edge(u, j) in s.examined && v in r.finished
    ensures UpTo(g, path, j + 1, r)
  {
    var u := path[|path| - 1];
    SettledNodeGrows(g, s, r, s.finished, r.finished, u, j);
    SettleNext(g, r, r.finished, u, j);
    assert (path + [v])[|path + [v]| - 1] == v;
    assert u in path + [v];
  }

  lemma GrowsOn(s: Search, s': Search, r: Search)
    requires Grows(s, s') && Grows(s', r)
    ensures Grows(s, r)
  {
  }

  lemma TouchesOn(g: Graph, path: seq<nat>, j: nat, s: Search, s': Search, r: Search)
    requires path != [] && s'.finished == s.finished && s'.examined == s.examined + [Edge(path[|path| - 1], j)]
    requires Touches(g, path, j + 1, s', r)
    ensures Touches(g, path, j, s, r)
  {
  }

  lemma TouchesThrough(g: Graph, path: seq<nat>, j: nat, v: nat, s: Search, s': Search, inner: Search, r: Search)
    requires path != [] && v in White(g, path, s.finished)
    requires s'.finished == s.finished && s'.examined == s.examined + [Edge(path[|path| - 1], j)]
    requires Grows(s', inner)
    requires Touches(g, path + [v], 0, s', inner) && Touches(g, path, j + 1, inner, r)
    ensures Touches(g, path, j, s, r)
  {
    assert (path + [v])[|path + [v]| - 1] == v;
    assert White(g, path + [v], s'.finished) <= White(g, path, s.finished);
    assert White(g, path, inner.finished) <= White(g, path, s.finished);
  }

  /** Visiting a node leaves the search sound with the node finished, and touches nothing begun before. */
  lemma {:induction false} VisitKeeps(g: Graph, path: seq<nat>, j: nat, s: Search)
    requires IsGraph(g) && Sound(g, path, s) && UpTo(g, path, j, s)
    ensures var r := Visit(g, path, j, s);
            && Sound(g, path[..|path| - 1], r) && path[|path| - 1] in r.finished
            && Grows(s, r) && Touches(g, path, j, s, r)
    decreases White(g, path, s.finished), |g[path[|path| - 1]]| - j, 1
  {
    var u := path[|path| - 1];
    var e := Edge(u, j);
    if j == |g[u]| {
      FinishStep(g, path, s);
    } else if g[u][j].None? || g[u][j].value in s.finished {
      SkipStep(g, path, j, s);
      AdvanceKeeps(g, path, j, s, Examine(s, e));
    } else if g[u][j].value in path {
      ReportStep(g, path, j, s);
      AdvanceKeeps(g, path, j, s, Examine(s, e).(reported := s.reported + [e]));
    } else {
      FollowKeeps(g, path, j, g[u][j].value, s);
      ReturnKeeps(g, path, j, g[u][j].value, s, Follow(s, e), Visit(g, path + [g[u][j].value], 0, Follow(s, e)));
    }
  }

  lemma {:induction false} AdvanceKeeps(g: Graph, path: seq<nat>, j: nat, s: Search, s': Search)
    requires IsGraph(g) && Sound(g, path, s') && UpTo(g, path, j + 1, s')
    requires Grows(s, s') && s'.finished == s.finished && s'.examined == s.examined + [Edge(path[|path| - 1], j)]
    ensures var r := Visit(g, path, j + 1, s');
            && Sound(g, path[..|path| - 1], r) && path[|path| - 1] in r.finished
            && Grows(s, r) && Touches(g, path, j, s, r)
    decreases White(g, path, s'.finished), |g[path[|path| - 1]]| - j - 1, 2
  {
    var r := Visit(g, path, j + 1, s');
    VisitKeeps(g, path, j + 1, s');
    GrowsOn(s, s', r);
    TouchesOn(g, path, j, s, s', r);
  }

  lemma {:induction false} ReturnKeeps(g: Graph, path: seq<nat>, j: nat, v: nat, s: Search, s': Search, inner: Search)
    requires IsGraph(g) && Sound(g, path, inner) && UpTo(g, path, j + 1, inner) && j < |g[path[|path| - 1]]|
    requires v in White(g, path, s.finished) && Grows(s, s') && Grows(s', inner)
    requires s'.finished == s.finished && s'.examined == s.examined + [Edge(path[|path| - 1], j)]
    requires Touches(g, path + [v], 0, s', inner)
    ensures var r := Visit(g, path, j + 1, inner);
            && Sound(g, path[..|path| - 1], r) && path[|path| - 1] in r.finished
            && Grows(s, r) && Touches(g, path, j, s, r)
    decreases White(g, path, s.finished), |g[path[|path| - 1]]| - j - 1, 2
  {
    var r := Visit(g, path, j + 1, inner);
    VisitKeeps(g, path, j + 1, inner);
    GrowsOn(s, s', inner);
    GrowsOn(s, inner, r);
    TouchesThrough(g, path, j, v, s, s', inner, r);
  }

  /** Following an edge to a white node and coming back leaves this node ready for its next edge. */
  lemma {:induction false} FollowKeeps(g: Graph, path: seq<nat>, j: nat, v: nat, s: Search)
    requires IsGraph(g) && Sound(g, path, s) && UpTo(g, path, j, s)
    requires var u := path[|path| - 1]; j < |g[u]| && g[u][j] == Some(v) && v !in path && v !in s.finished
    ensures v in White(g, path, s.finished)
    ensures var s' := Follow(s, Edge(path[|path| - 1], j));
            var inner := Visit(g, path + [v], 0, s');
            && Sound(g, path, inner) && UpTo(g, path, j + 1, inner)
            && Grows(s', inner) && Touches(g, path + [v], 0, s', inner)
    decreases White(g, path, s.finished), |g[path[|path| - 1]]| - j, 0
  {
    var u := path[|path| - 1];
    var s' := Follow(s, Edge(u, j));
    FollowStep(g, path, j, s);
    assert v in White(g, path, s.finished) && v !in White(g, path + [v], s.finished);
    VisitKeeps(g, path + [v], 0, s');
    assert (path + [v])[..|path|] == path && (path + [v])[|path|] == v;
    SettledNodeGrows(g, s, s', s.finished, s'.finished, u, j);
    ReturnStep(g, path, j, v, s', Visit(g, path + [v], 0, s'));
  }

  predicate AllFinished(n: nat, s: Search) {
    forall x :: 0 <= x < n ==> x in s.finished
  }

  lemma MoreFinished(n: nat, s: Search, r: Search)
    requires AllFinished(n, s) && s.finished <= r.finished && n in r.finished
    ensures AllFinished(n + 1, r)
  {
    forall x | 0 <= x < n
      ensures x in r.finished
    {
      assert x in s.finished;
      var i :| 0 <= i < |s.finished| && s.finished[i] == x;
      assert r.finished[i] == x;
    }
  }

  lemma {:induction false} RootsKeep(g: Graph, n: nat)
    requires IsGraph(g) && n <= |g|
    ensures Sound(g, [], VisitRoots(g, n)) && AllFinished(n, VisitRoots(g, n))
    decreases n
  {
    if n > 0 {
      RootsKeep(g, n - 1);
      var s := VisitRoots(g, n - 1);
      if n - 1 !in s.finished {
        assert Sound(g, [n - 1], s);
        VisitKeeps(g, [n - 1], 0, s);
      }
      MoreFinished(n - 1, s, VisitRoots(g, n));
    }
  }

  // ----- What the search reports -----

  function Kept(g: Graph): set<Edge>
    requires IsGraph(g)
  {
    set e | e in Edges(g) && e !in SearchAll(g).reported
  }

  lemma SearchIsSound(g: Graph)
    requires IsGraph(g)
    ensures Sound(g, [], SearchAll(g)) && AllFinished(|g|, SearchAll(g))
  {
    RootsKeep(g, |g|);
  }

  /** Each edge of the graph, resolvable or not, is examined exactly once. */
  lemma EveryEdgeExaminedOnce(g: Graph, e: Edge)
    requires IsGraph(g)
    ensures Distinct(SearchAll(g).examined)
    ensures e in SearchAll(g).examined <==> e.node < |g| && e.index < |g[e.node]|
  {
    SearchIsSound(g);
    var s := SearchAll(g);
    if e.node < |g| && e.index < |g[e.node]| {
      assert e.node in s.finished;
      var i :| 0 <= i < |s.finished| && s.finished[i] == e.node;
      assert SettledNode(g, s, s.finished[..i], e.node, |g[e.node]|);
      assert Settled(g, s, s.finished[..i], e.node, e.index);
    }
  }

  /** Each reported edge closes a cycle none of whose other edges is reported. */
  lemma ReportedEdgesCloseCycles(g: Graph, e: Edge)
    requires IsGraph(g) && e in SearchAll(g).reported
    ensures Distinct(SearchAll(g).reported)
    ensures IsEdge(g, e) && WalkBetween(g, Kept(g), Target(g, e), e.node)
  {
    SearchIsSound(g);
    var s := SearchAll(g);
    FollowedWalkIsKept(g, Target(g, e), e.node);
  }

  lemma FollowedWalkIsKept(g: Graph, x: nat, y: nat)
    requires IsGraph(g) && WalkBetween(g, SearchAll(g).followed, x, y)
    ensures WalkBetween(g, Kept(g), x, y)
  {
    SearchIsSound(g);
    var s := SearchAll(g);
    var p :| Walk(g, s.followed, p) && p[0] == x && p[|p| - 1] == y;
    forall i | 0 < i < |p|
      ensures Linked(g, Kept(g), p[i - 1], p[i])
    {
      assert Linked(g, s.followed, p[i - 1], p[i]);
      var e :| e in s.followed && Joins(g, e, p[i - 1], p[i]);
      assert e in Edges(g) && e in Kept(g);
    }
    assert Walk(g, Kept(g), p);
  }

  /** Along kept edges the finishing order strictly decreases. */
  lemma {:induction false} KeptWalkDescends(g: Graph, p: seq<nat>, i: nat)
    requires IsGraph(g) && |p| > 1 && Walk(g, Kept(g), p)
    requires i < |SearchAll(g).finished| && SearchAll(g).finished[i] == p[0]
    ensures p[|p| - 1] in SearchAll(g).finished[..i]
    decreases |p|
  {
    SearchIsSound(g);
    var s := SearchAll(g);
    assert Linked(g, Kept(g), p[0], p[1]);
    var e :| e in Kept(g) && Joins(g, e, p[0], p[1]);
    assert SettledNode(g, s, s.finished[..i], s.finished[i], |g[s.finished[i]]|);
    assert Settled(g, s, s.finished[..i], e.node, e.index);
    if |p| > 2 {
      var i' :| 0 <= i' < i && s.finished[i'] == p[1];
      forall k | 0 < k < |p[1..]|
        ensures Linked(g, Kept(g), p[1..][k - 1], p[1..][k])
      {
        assert Linked(g, Kept(g), p[k], p[k + 1]);
      }
      KeptWalkDescends(g, p[1..], i');
    }
  }

  /** Without the reported edges there is no cycle. */
  lemma DroppingReportedEdgesLeavesNoCycle(g: Graph)
    requires IsGraph(g)
    ensures Acyclic(g, Kept(g))
  {
    SearchIsSound(g);
    var s := SearchAll(g);
    forall p | Cycle(g, Kept(g), p)
      ensures false
    {
      assert Linked(g, Kept(g), p[0], p[1]);
      assert p[0] in s.finished;
      var i :| 0 <= i < |s.finished| && s.finished[i] == p[0];
      KeptWalkDescends(g, p, i);
      assert false;
    }
  }

  lemma KeptAreEdges(g: Graph)
    requires IsGraph(g)
    ensures Kept(g) <= Edges(g) && (SearchAll(g).reported == [] ==> Kept(g) == Edges(g))
  {
  }

  lemma ClosedWalk(g: Graph, edges: set<Edge>, e: Edge)
    requires e in edges && IsEdge(g, e) && WalkBetween(g, edges, Target(g, e), e.node)
    ensures !Acyclic(g, edges)
  {
    var p :| Walk(g, edges, p) && p[0] == Target(g, e) && p[|p| - 1] == e.node;
    var q := p + [Target(g, e)];
    forall i | 0 < i < |q|
      ensures Linked(g, edges, q[i - 1], q[i])
    {
      if i < |p| {
        assert Linked(g, edges, p[i - 1], p[i]);
      } else {
        assert Joins(g, e, q[i - 1], q[i]);
      }
    }
    assert Cycle(g, edges, q);
  }

  /** Something is reported exactly when the graph has a cycle. */
  lemma ReportsExactlyCycles(g: Graph)
    requires IsGraph(g)
    ensures SearchAll(g).reported == [] <==> Acyclic(g, Edges(g))
  {
    var reported := SearchAll(g).reported;
    KeptAreEdges(g);
    if reported == [] {
      DroppingReportedEdgesLeavesNoCycle(g);
    } else {
      var e := reported[0];
      ReportedEdgesCloseCycles(g, e);
      WalkGrows(g, Kept(g), Edges(g), Target(g, e), e.node);
      ClosedWalk(g, Edges(g), e);
    }
  }
}
