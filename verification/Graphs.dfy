/** The pipeline graph: edges, walks, reachability, and the two worklists of `_Graph`. */
module Graphs {

  type NodeId = string

  /** One edge of the pipeline: a port of `src` feeds a port of `dst`. */
  datatype Edge = Edge(src: NodeId, srcPort: string, dst: NodeId, dstPort: string)

  ghost predicate HasEdge(edges: seq<Edge>, a: NodeId, b: NodeId) {
    exists e :: e in edges && e.src == a && e.dst == b
  }

  /** There is a walk of exactly `n` edges from `a` to `b`. */
  ghost predicate Walk(edges: seq<Edge>, a: NodeId, b: NodeId, n: nat)
    decreases n
  {
    if n == 0 then a == b
    else exists c :: Walk(edges, a, c, n - 1) && HasEdge(edges, c, b)
  }

  /** `b` can be reached from `a` along one or more edges. */
  ghost predicate Reaches(edges: seq<Edge>, a: NodeId, b: NodeId) {
    exists n: nat :: n > 0 && Walk(edges, a, b, n)
  }

  ghost predicate Cyclic(edges: seq<Edge>) {
    exists a :: Reaches(edges, a, a)
  }

  function Endpoints(edges: seq<Edge>): set<NodeId> {
    (set e | e in edges :: e.src) + (set e | e in edges :: e.dst)
  }

  ghost function Descendants(edges: seq<Edge>, a: NodeId): set<NodeId> {
    set b | b in Endpoints(edges) && Reaches(edges, a, b)
  }

  ghost function Ancestors(edges: seq<Edge>, b: NodeId): set<NodeId> {
    set a | a in Endpoints(edges) && Reaches(edges, a, b)
  }

  // ---------------------------------------------------------------- walks

  lemma {:induction false} WalksCompose(edges: seq<Edge>, a: NodeId, b: NodeId, c: NodeId, m: nat, n: nat)
    requires Walk(edges, a, b, m) && Walk(edges, b, c, n)
    ensures Walk(edges, a, c, m + n)
    decreases n
  {
    if n > 0 {
      var d :| Walk(edges, b, d, n - 1) && HasEdge(edges, d, c);
      WalksCompose(edges, a, b, d, m, n - 1);
      assert Walk(edges, a, d, m + n - 1);
    }
  }

  lemma EdgeReaches(edges: seq<Edge>, a: NodeId, b: NodeId)
    requires HasEdge(edges, a, b)
    ensures Reaches(edges, a, b)
  {
    assert Walk(edges, a, a, 0);
    assert Walk(edges, a, b, 1);
  }

  lemma ReachesTransitive(edges: seq<Edge>, a: NodeId, b: NodeId, c: NodeId)
    requires Reaches(edges, a, b) && Reaches(edges, b, c)
    ensures Reaches(edges, a, c)
  {
    var m: nat :| m > 0 && Walk(edges, a, b, m);
    var n: nat :| n > 0 && Walk(edges, b, c, n);
    WalksCompose(edges, a, b, c, m, n);
  }

  /** A walk of one or more edges splits off its first edge. */
  lemma {:induction false} FirstEdge(edges: seq<Edge>, a: NodeId, b: NodeId, n: nat) returns (c: NodeId)
    requires n > 0 && Walk(edges, a, b, n)
    ensures HasEdge(edges, a, c) && Walk(edges, c, b, n - 1)
    decreases n
  {
    var d :| Walk(edges, a, d, n - 1) && HasEdge(edges, d, b);
    if n == 1 {
      c := b;
    } else {
      c := FirstEdge(edges, a, d, n - 1);
      assert Walk(edges, c, d, n - 2);
    }
  }

  lemma ReachesEndpoints(edges: seq<Edge>, a: NodeId, b: NodeId)
    requires Reaches(edges, a, b)
    ensures a in Endpoints(edges) && b in Endpoints(edges)
  {
    var n: nat :| n > 0 && Walk(edges, a, b, n);
    var c := FirstEdge(edges, a, b, n);
    var e :| e in edges && e.src == a && e.dst == c;
    var d :| Walk(edges, a, d, n - 1) && HasEdge(edges, d, b);
    var f :| f in edges && f.src == d && f.dst == b;
  }

  /** Reachability backwards is reachability forwards: the two closures are converses. */
  lemma ClosuresAreConverse(edges: seq<Edge>, a: NodeId, b: NodeId)
    ensures b in Descendants(edges, a) <==> a in Ancestors(edges, b)
    ensures b in Descendants(edges, a) <==> Reaches(edges, a, b)
  {
    if Reaches(edges, a, b) {
      ReachesEndpoints(edges, a, b);
    }
  }

  /** Every step towards a source of an acyclic part strictly shrinks the ancestor set. */
  lemma AncestorsShrink(edges: seq<Edge>, a: NodeId, b: NodeId)
    requires Reaches(edges, a, b) && !Reaches(edges, a, a)
    ensures Ancestors(edges, a) < Ancestors(edges, b)
  {
    forall x | x in Ancestors(edges, a) ensures x in Ancestors(edges, b) {
      ReachesTransitive(edges, x, a, b);
    }
    ReachesEndpoints(edges, a, b);
    assert a in Ancestors(edges, b) && a !in Ancestors(edges, a);
  }

  ghost predicate HasPredecessorIn(edges: seq<Edge>, live: set<NodeId>, m: NodeId) {
    exists a :: a in live && HasEdge(edges, a, m)
  }

  /** If every member of a set has a predecessor in the set, some member is on a cycle. */
  lemma {:induction false} StuckMeansCycle(edges: seq<Edge>, live: set<NodeId>, m: NodeId)
    requires m in live
    requires forall x :: x in live ==> HasPredecessorIn(edges, live, x)
    ensures Cyclic(edges)
    decreases Ancestors(edges, m)
  {
    assert HasPredecessorIn(edges, live, m);
    var y :| y in live && HasEdge(edges, y, m);
    EdgeReaches(edges, y, m);
    if !Reaches(edges, y, y) {
      AncestorsShrink(edges, y, m);
      StuckMeansCycle(edges, live, y);
    }
  }

  // ---------------------------------------------------------------- adjacency lists

  /** `out_edges[n]`: the edges leaving `n`, in declaration order. */
  function OutEdges(edges: seq<Edge>, n: NodeId): (out: seq<Edge>)
    ensures forall e :: e in out <==> e in edges && e.src == n
  {
    if edges == [] then []
    else
      var rest := OutEdges(edges[..|edges| - 1], n);
      var e := edges[|edges| - 1];
      assert edges == edges[..|edges| - 1] + [e];
      if e.src == n then rest + [e] else rest
  }

  /** `in_edges[n]`: the edges entering `n`, in declaration order. */
  function InEdges(edges: seq<Edge>, n: NodeId): (into: seq<Edge>)
    ensures forall e :: e in into <==> e in edges && e.dst == n
  {
    if edges == [] then []
    else
      var rest := InEdges(edges[..|edges| - 1], n);
      var e := edges[|edges| - 1];
      assert edges == edges[..|edges| - 1] + [e];
      if e.dst == n then rest + [e] else rest
  }

  function Targets(out: seq<Edge>): seq<NodeId> {
    seq(|out|, i requires 0 <= i < |out| => out[i].dst)
  }

  function Sources(into: seq<Edge>): seq<NodeId> {
    seq(|into|, i requires 0 <= i < |into| => into[i].src)
  }

  lemma NeighboursAreEdges(edges: seq<Edge>, n: NodeId, m: NodeId)
    ensures m in Targets(OutEdges(edges, n)) <==> HasEdge(edges, n, m)
    ensures m in Sources(InEdges(edges, n)) <==> HasEdge(edges, m, n)
  {
    var out, into := OutEdges(edges, n), InEdges(edges, n);
    if HasEdge(edges, n, m) {
      var e :| e in edges && e.src == n && e.dst == m;
      var i :| 0 <= i < |out| && out[i] == e;
      assert Targets(out)[i] == m;
    }
    if HasEdge(edges, m, n) {
      var e :| e in edges && e.src == m && e.dst == n;
      var i :| 0 <= i < |into| && into[i] == e;
      assert Sources(into)[i] == m;
    }
  }

  // ---------------------------------------------------------------- the graph turned around

  function Flip(e: Edge): Edge {
    Edge(e.dst, e.dstPort, e.src, e.srcPort)
  }

  function Reverse(edges: seq<Edge>): seq<Edge> {
    seq(|edges|, i requires 0 <= i < |edges| => Flip(edges[i]))
  }

  lemma ReverseEdge(edges: seq<Edge>, a: NodeId, b: NodeId)
    ensures HasEdge(Reverse(edges), a, b) <==> HasEdge(edges, b, a)
  {
    if HasEdge(edges, b, a) {
      var e :| e in edges && e.src == b && e.dst == a;
      var i :| 0 <= i < |edges| && edges[i] == e;
      assert Reverse(edges)[i] == Flip(e);
    }
  }

  lemma {:induction false} ReverseWalk(edges: seq<Edge>, a: NodeId, b: NodeId, n: nat)
    requires Walk(Reverse(edges), a, b, n)
    ensures Walk(edges, b, a, n)
    decreases n
  {
    if n > 0 {
      var c :| Walk(Reverse(edges), a, c, n - 1) && HasEdge(Reverse(edges), c, b);
      ReverseWalk(edges, a, c, n - 1);
      ReverseEdge(edges, c, b);
      assert Walk(edges, b, b, 0);
      assert Walk(edges, b, c, 1);
      WalksCompose(edges, b, c, a, 1, n - 1);
    }
  }

  lemma ReverseTwice(edges: seq<Edge>)
    ensures Reverse(Reverse(edges)) == edges
  {
  }

  lemma ReverseReaches(edges: seq<Edge>, a: NodeId, b: NodeId)
    ensures Reaches(Reverse(edges), a, b) <==> Reaches(edges, b, a)
  {
    if Reaches(Reverse(edges), a, b) {
      var n: nat :| n > 0 && Walk(Reverse(edges), a, b, n);
      ReverseWalk(edges, a, b, n);
    }
    if Reaches(edges, b, a) {
      var n: nat :| n > 0 && Walk(edges, b, a, n);
      ReverseTwice(edges);
      ReverseWalk(Reverse(edges), b, a, n);
    }
  }

  // ---------------------------------------------------------------- worklists

  function Elements(s: seq<NodeId>): set<NodeId> {
    set m | m in s
  }

  /** What a worklist found is reachable, and only what still waits is unexplored. */
  ghost predicate WorklistInvariant(edges: seq<Edge>, n: NodeId, found: set<NodeId>, waiting: set<NodeId>) {
    && found <= Descendants(edges, n)
    && waiting <= found + {n}
    && forall a, b :: HasEdge(edges, a, b) && a in found + {n} && a !in waiting ==> b in found
  }

  lemma WorklistStep(edges: seq<Edge>, n: NodeId, found: set<NodeId>, waiting: set<NodeId>,
                     current: NodeId, rest: set<NodeId>, next: set<NodeId>)
    requires WorklistInvariant(edges, n, found, waiting)
    requires waiting == rest + {current}
    requires forall m :: m in next <==> HasEdge(edges, current, m)
    ensures WorklistInvariant(edges, n, found + next, rest + (next - found))
  {
    forall m | m in next ensures m in Descendants(edges, n) {
      EdgeReaches(edges, current, m);
      if current != n {
        ReachesTransitive(edges, n, current, m);
      }
      ReachesEndpoints(edges, n, m);
    }
  }

  lemma {:induction false} WorklistClosed(edges: seq<Edge>, n: NodeId, found: set<NodeId>, m: NodeId, k: nat)
    requires WorklistInvariant(edges, n, found, {}) && k > 0 && Walk(edges, n, m, k)
    ensures m in found
    decreases k
  {
    var d :| Walk(edges, n, d, k - 1) && HasEdge(edges, d, m);
    if k > 1 {
      WorklistClosed(edges, n, found, d, k - 1);
    }
  }

  lemma WorklistDone(edges: seq<Edge>, n: NodeId, found: set<NodeId>)
    requires WorklistInvariant(edges, n, found, {})
    ensures found == Descendants(edges, n)
  {
    forall m | m in Descendants(edges, n) ensures m in found {
      var k: nat :| k > 0 && Walk(edges, n, m, k);
      WorklistClosed(edges, n, found, m, k);
    }
  }

  /** The inner loop: neighbours not found yet are recorded and pushed. */
  method Visit(neighbours: seq<NodeId>, known: set<NodeId>, pending: seq<NodeId>)
    returns (found: set<NodeId>, stack: seq<NodeId>)
    ensures found == known + Elements(neighbours)
    ensures Elements(stack) == Elements(pending) + (Elements(neighbours) - known)
    ensures found == known ==> stack == pending
  {
    found, stack := known, pending;
    for i := 0 to |neighbours|
      invariant found == known + Elements(neighbours[..i])
      invariant Elements(stack) == Elements(pending) + (Elements(neighbours[..i]) - known)
      invariant found == known ==> stack == pending
    {
      var next := neighbours[i];
      assert Elements(neighbours[..i + 1]) == Elements(neighbours[..i]) + {next};
      if next !in found {
        assert Elements(stack + [next]) == Elements(stack) + {next};
        found := found + {next};
        stack := stack + [next];
      }
    }
    assert neighbours[..|neighbours|] == neighbours;
  }

  /** The stack loop that `descendants` and `ancestors` share, over either adjacency. It terminates
      on cyclic graphs too. */
  method Close(neighbours: NodeId -> seq<NodeId>, ghost edges: seq<Edge>, n: NodeId) returns (found: set<NodeId>)
    requires forall a, b :: b in neighbours(a) <==> HasEdge(edges, a, b)
    ensures found == Descendants(edges, n)
  {
    found := {};
    var stack := [n];
    assert Elements(stack) == {n};
    while stack != []
      invariant WorklistInvariant(edges, n, found, Elements(stack))
      decreases Endpoints(edges) - found, |stack|
    {
      var current := stack[|stack| - 1];
      var rest := stack[..|stack| - 1];
      assert stack == rest + [current];
      assert Elements(stack) == Elements(rest) + {current};
      ghost var before := found;
      WorklistStep(edges, n, found, Elements(stack), current, Elements(rest), Elements(neighbours(current)));
      found, stack := Visit(neighbours(current), found, rest);
      assert found <= Endpoints(edges);
      assert found == before || (found > before && Endpoints(edges) - found < Endpoints(edges) - before);
    }
    assert Elements(stack) == {};
    WorklistDone(edges, n, found);
  }

  /** `descendants`: exactly the nodes that one or more edges lead to. */
  method FindDescendants(edges: seq<Edge>, n: NodeId) returns (found: set<NodeId>)
    ensures found == Descendants(edges, n)
    ensures forall m :: m in found <==> Reaches(edges, n, m)
  {
    forall a, b ensures b in Targets(OutEdges(edges, a)) <==> HasEdge(edges, a, b) {
      NeighboursAreEdges(edges, a, b);
    }
    found := Close(a => Targets(OutEdges(edges, a)), edges, n);
    forall m ensures m in found <==> Reaches(edges, n, m) {
      ClosuresAreConverse(edges, n, m);
    }
  }

  /** `ancestors`: exactly the nodes from which one or more edges lead here. */
  method FindAncestors(edges: seq<Edge>, n: NodeId) returns (found: set<NodeId>)
    ensures found == Ancestors(edges, n)
    ensures forall m :: m in found <==> Reaches(edges, m, n)
  {
    forall a, b ensures b in Sources(InEdges(edges, a)) <==> HasEdge(Reverse(edges), a, b) {
      NeighboursAreEdges(edges, a, b);
      ReverseEdge(edges, a, b);
    }
    found := Close(a => Sources(InEdges(edges, a)), Reverse(edges), n);
    forall m ensures m in found <==> Reaches(edges, m, n) {
      ReverseReaches(edges, n, m);
      ClosuresAreConverse(Reverse(edges), n, m);
    }
    forall m ensures m in found <==> m in Ancestors(edges, n) {
      ClosuresAreConverse(edges, m, n);
    }
  }
}
