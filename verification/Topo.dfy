/** The deterministic Kahn sort of `_Graph.topo_order`.

    Edges that touch an undeclared node are ignored; parallel edges are counted with their
    multiplicity. Ids may repeat (validation reports that separately): a repeated id ranks by its
    last declaration. */
module Topo {
  import opened Wrappers
  import opened Graphs

  predicate Distinct(s: seq<NodeId>) {
    forall i, j :: 0 <= i < j < |s| ==> s[i] != s[j]
  }

  /** `order_index[n]`: the position of the last declaration of `n`. */
  function DeclIndex(ids: seq<NodeId>, n: NodeId): (r: nat)
    requires n in ids
    ensures r < |ids| && ids[r] == n
    ensures forall k :: r < k < |ids| ==> ids[k] != n
  {
    if ids[|ids| - 1] == n then |ids| - 1
    else
      assert ids == ids[..|ids| - 1] + [ids[|ids| - 1]];
      DeclIndex(ids[..|ids| - 1], n)
  }

  /** The edges between declared nodes. */
  function Known(ids: seq<NodeId>, edges: seq<Edge>): (known: seq<Edge>)
    ensures forall e :: e in known <==> e in edges && e.src in ids && e.dst in ids
  {
    if edges == [] then []
    else
      var rest := Known(ids, edges[..|edges| - 1]);
      var e := edges[|edges| - 1];
      assert edges == edges[..|edges| - 1] + [e];
      if e.src in ids && e.dst in ids then rest + [e] else rest
  }

  /** Every declared node once, each edge between declared nodes pointing forwards. */
  ghost predicate IsTopoOrder(ids: seq<NodeId>, edges: seq<Edge>, order: seq<NodeId>) {
    && Distinct(order)
    && Elements(order) == Elements(ids)
    && forall i, j :: 0 <= i < |order| && 0 <= j < |order| && HasEdge(edges, order[i], order[j]) ==> i < j
  }

  /** At the first position where they differ, `a` has the node declared earlier. */
  ghost predicate LexLess(ids: seq<NodeId>, a: seq<NodeId>, b: seq<NodeId>) {
    exists k :: 0 <= k < |a| && k < |b| && a[..k] == b[..k]
             && a[k] in ids && b[k] in ids && DeclIndex(ids, a[k]) < DeclIndex(ids, b[k])
  }

  // ---------------------------------------------------------------- in-degrees

  /** The number of edges (with multiplicity) into `m` whose source is in `live`. */
  function InDegree(edges: seq<Edge>, live: set<NodeId>, m: NodeId): nat {
    if edges == [] then 0
    else
      var e := edges[|edges| - 1];
      InDegree(edges[..|edges| - 1], live, m) + if e.dst == m && e.src in live then 1 else 0
  }

  lemma {:induction false} InDegreeStep(edges: seq<Edge>, k: nat, live: set<NodeId>, m: NodeId)
    requires k < |edges|
    ensures InDegree(edges[..k + 1], live, m)
         == InDegree(edges[..k], live, m) + if edges[k].dst == m && edges[k].src in live then 1 else 0
  {
    assert edges[..k + 1][..k] == edges[..k];
  }

  lemma {:induction false} InDegreeSplit(edges: seq<Edge>, a: set<NodeId>, b: set<NodeId>, m: NodeId)
    requires a !! b
    ensures InDegree(edges, a + b, m) == InDegree(edges, a, m) + InDegree(edges, b, m)
  {
    if edges != [] {
      InDegreeSplit(edges[..|edges| - 1], a, b, m);
    }
  }

  lemma {:induction false} InDegreeOut(edges: seq<Edge>, n: NodeId, m: NodeId)
    ensures InDegree(OutEdges(edges, n), {n}, m) == InDegree(edges, {n}, m)
  {
    if edges != [] {
      var e, front := edges[|edges| - 1], edges[..|edges| - 1];
      InDegreeOut(front, n, m);
      if e.src == n {
        assert OutEdges(edges, n)[..|OutEdges(edges, n)| - 1] == OutEdges(front, n);
      }
    }
  }

  lemma HasEdgeSnoc(front: seq<Edge>, e: Edge, a: NodeId, m: NodeId)
    ensures HasEdge(front + [e], a, m) <==> HasEdge(front, a, m) || (e.src == a && e.dst == m)
  {
    if HasEdge(front, a, m) {
      var f :| f in front && f.src == a && f.dst == m;
      assert f in front + [e];
    }
    assert e in front + [e];
  }

  lemma {:induction false} InDegreePositive(edges: seq<Edge>, live: set<NodeId>, m: NodeId)
    ensures InDegree(edges, live, m) > 0 <==> exists a :: a in live && HasEdge(edges, a, m)
  {
    if edges != [] {
      var e, front := edges[|edges| - 1], edges[..|edges| - 1];
      assert edges == front + [e];
      InDegreePositive(front, live, m);
      forall a ensures HasEdge(edges, a, m) <==> HasEdge(front, a, m) || (e.src == a && e.dst == m) {
        HasEdgeSnoc(front, e, a, m);
      }
    }
  }

  /** Removing `n` from the live nodes lowers the in-degree of `m` by the edges from `n`. */
  lemma InDegreeRemove(edges: seq<Edge>, live: set<NodeId>, n: NodeId, m: NodeId)
    requires n in live
    ensures InDegree(edges, live, m) == InDegree(edges, live - {n}, m) + InDegree(OutEdges(edges, n), {n}, m)
  {
    assert live == (live - {n}) + {n};
    InDegreeSplit(edges, live - {n}, {n}, m);
    InDegreeOut(edges, n, m);
  }

  // ---------------------------------------------------------------- sorting by rank

  predicate SortedByRank(rank: map<NodeId, nat>, s: seq<NodeId>) {
    && (forall i :: 0 <= i < |s| ==> s[i] in rank)
    && forall i, j :: 0 <= i < j < |s| ==> rank[s[i]] < rank[s[j]]
  }

  lemma SortedCons(rank: map<NodeId, nat>, x: NodeId, s: seq<NodeId>)
    requires SortedByRank(rank, s) && x in rank
    requires forall m :: m in Elements(s) ==> m in rank && rank[x] < rank[m]
    ensures SortedByRank(rank, [x] + s)
  {
    var r := [x] + s;
    forall i, j | 0 <= i < j < |r| ensures r[i] in rank && r[j] in rank && rank[r[i]] < rank[r[j]] {
      assert r[j] == s[j - 1];
      assert s[j - 1] in Elements(s);
      if i > 0 {
        assert r[i] == s[i - 1];
      }
    }
  }

  lemma ElementsCons(x: NodeId, s: seq<NodeId>)
    ensures Elements([x] + s) == {x} + Elements(s)
  {
  }

  function Insert(rank: map<NodeId, nat>, s: seq<NodeId>, x: NodeId): (r: seq<NodeId>)
    requires SortedByRank(rank, s) && x in rank
    requires forall m :: m in Elements(s) ==> m in rank && rank[m] != rank[x]
    ensures SortedByRank(rank, r)
    ensures Elements(r) == Elements(s) + {x}
  {
    if s == [] then [x]
    else
      assert s == [s[0]] + s[1..];
      ElementsCons(s[0], s[1..]);
      if rank[x] < rank[s[0]] then
        SortedCons(rank, x, s);
        ElementsCons(x, s);
        [x] + s
      else
        var rest := Insert(rank, s[1..], x);
        SortedCons(rank, s[0], rest);
        ElementsCons(s[0], rest);
        [s[0]] + rest
  }

  /** `sorted(..., key=order_index.__getitem__)` on ids whose ranks differ. */
  function Sort(rank: map<NodeId, nat>, s: seq<NodeId>): (r: seq<NodeId>)
    requires forall i :: 0 <= i < |s| ==> s[i] in rank
    requires forall i, j :: 0 <= i < j < |s| ==> rank[s[i]] != rank[s[j]]
    ensures SortedByRank(rank, r)
    ensures Elements(r) == Elements(s)
  {
    if s == [] then []
    else
      var rest := Sort(rank, s[1..]);
      assert s == [s[0]] + s[1..];
      ElementsCons(s[0], s[1..]);
      Insert(rank, rest, s[0])
  }

  // ---------------------------------------------------------------- Kahn's greedy choice

  /** `n` is declared, not yet output, has no unfinished predecessor, and no such node is declared
      earlier. */
  ghost predicate IsNext(ids: seq<NodeId>, edges: seq<Edge>, done: seq<NodeId>, n: NodeId) {
    var live := Elements(ids) - Elements(done);
    && n in live
    && InDegree(edges, live, n) == 0
    && forall m :: m in live && InDegree(edges, live, m) == 0 ==> DeclIndex(ids, n) <= DeclIndex(ids, m)
  }

  ghost predicate Greedy(ids: seq<NodeId>, edges: seq<Edge>, order: seq<NodeId>) {
    forall k :: 0 <= k < |order| ==> IsNext(ids, edges, order[..k], order[k])
  }

  lemma GreedySnoc(ids: seq<NodeId>, edges: seq<Edge>, order: seq<NodeId>, n: NodeId)
    requires Greedy(ids, edges, order) && IsNext(ids, edges, order, n)
    ensures Greedy(ids, edges, order + [n])
  {
    var longer := order + [n];
    forall k | 0 <= k < |longer| ensures IsNext(ids, edges, longer[..k], longer[k]) {
      assert longer[..k] == order[..k];
      assert k == |order| ==> order[..k] == order;
    }
  }

  lemma GreedyIsDistinct(ids: seq<NodeId>, edges: seq<Edge>, order: seq<NodeId>)
    requires Greedy(ids, edges, order)
    ensures Distinct(order)
    ensures forall k :: 0 <= k < |order| ==> order[k] in ids
  {
    forall i, j | 0 <= i < j < |order| ensures order[i] != order[j] {
      assert IsNext(ids, edges, order[..j], order[j]);
      assert order[i] == order[..j][i];
      assert order[i] in Elements(order[..j]);
    }
  }

  lemma GreedyIsTopological(ids: seq<NodeId>, edges: seq<Edge>, order: seq<NodeId>)
    requires Greedy(ids, edges, order) && Elements(order) == Elements(ids)
    ensures IsTopoOrder(ids, edges, order)
  {
    GreedyIsDistinct(ids, edges, order);
    forall i, j | 0 <= i < |order| && 0 <= j < |order| && HasEdge(edges, order[i], order[j])
      ensures i < j
    {
      assert IsNext(ids, edges, order[..j], order[j]);
      InDegreePositive(edges, Elements(ids) - Elements(order[..j]), order[j]);
      assert order[i] in Elements(order);
      assert order[i] in Elements(order[..j]);
    }
  }

  /** In a topological order, every prefix contains the predecessors of the next node. */
  lemma TopoNextIsReady(ids: seq<NodeId>, edges: seq<Edge>, p: seq<NodeId>, k: nat)
    requires IsTopoOrder(ids, edges, p) && k < |p|
    ensures p[k] in Elements(ids) - Elements(p[..k])
    ensures InDegree(edges, Elements(ids) - Elements(p[..k]), p[k]) == 0
  {
    assert p[k] in Elements(p);
    var live := Elements(ids) - Elements(p[..k]);
    InDegreePositive(edges, live, p[k]);
    forall a | a in Elements(ids) && HasEdge(edges, a, p[k]) ensures a in Elements(p[..k]) {
      assert a in Elements(p);
      var i :| 0 <= i < |p| && p[i] == a;
      assert p[i] == p[..k][i];
    }
  }

  lemma {:induction false} DistinctLength(p: seq<NodeId>)
    requires Distinct(p)
    ensures |Elements(p)| == |p|
  {
    if p != [] {
      var front, last := p[..|p| - 1], p[|p| - 1];
      DistinctLength(front);
      assert p == front + [last];
      assert Elements(p) == Elements(front) + {last};
      assert last !in Elements(front);
    }
  }

  lemma FirstDifference(a: seq<NodeId>, b: seq<NodeId>) returns (k: nat)
    requires |a| == |b| && a != b
    ensures k < |a| && a[..k] == b[..k] && a[k] != b[k]
  {
    k := 0;
    while k < |a| && a[k] == b[k]
      invariant k <= |a| && a[..k] == b[..k]
    {
      assert a[..k + 1] == a[..k] + [a[k]] && b[..k + 1] == b[..k] + [b[k]];
      k := k + 1;
    }
    assert a[..|a|] == a && b[..|b|] == b;
  }

  /** The next greedy node is declared no later than any node that could come next. */
  lemma GreedyBeats(ids: seq<NodeId>, edges: seq<Edge>, order: seq<NodeId>, p: seq<NodeId>, k: nat)
    requires Greedy(ids, edges, order) && IsTopoOrder(ids, edges, p)
    requires k < |order| && k < |p| && order[..k] == p[..k] && order[k] != p[k]
    ensures LexLess(ids, order, p)
  {
    assert IsNext(ids, edges, order[..k], order[k]);
    TopoNextIsReady(ids, edges, p, k);
    assert DeclIndex(ids, order[k]) <= DeclIndex(ids, p[k]);
    assert ids[DeclIndex(ids, order[k])] == order[k] && ids[DeclIndex(ids, p[k])] == p[k];
  }

  /** The greedy order is the least of all topological orders. */
  lemma GreedyIsLeast(ids: seq<NodeId>, edges: seq<Edge>, order: seq<NodeId>, p: seq<NodeId>)
    requires Greedy(ids, edges, order) && Elements(order) == Elements(ids)
    requires IsTopoOrder(ids, edges, p)
    ensures p == order || LexLess(ids, order, p)
  {
    GreedyIsDistinct(ids, edges, order);
    DistinctLength(order);
    DistinctLength(p);
    if p != order {
      var k := FirstDifference(order, p);
      GreedyBeats(ids, edges, order, p, k);
    }
  }

  lemma KnownHasEdge(ids: seq<NodeId>, edges: seq<Edge>, a: NodeId, b: NodeId)
    requires HasEdge(edges, a, b) && a in ids && b in ids
    ensures HasEdge(Known(ids, edges), a, b)
  {
    var e :| e in edges && e.src == a && e.dst == b;
    assert e in Known(ids, edges);
  }

  lemma LivePredecessor(ids: seq<NodeId>, edges: seq<Edge>, live: set<NodeId>, m: NodeId)
    requires m in live && live <= Elements(ids) && InDegree(edges, live, m) > 0
    ensures HasPredecessorIn(Known(ids, edges), live, m)
  {
    InDegreePositive(edges, live, m);
    var a :| a in live && HasEdge(edges, a, m);
    KnownHasEdge(ids, edges, a, m);
  }

  /** If no live node is ready, the declared part of the graph has a cycle. */
  lemma NoneReadyMeansCycle(ids: seq<NodeId>, edges: seq<Edge>, live: set<NodeId>)
    requires live != {} && live <= Elements(ids)
    requires forall m :: m in live ==> InDegree(edges, live, m) > 0
    ensures Cyclic(Known(ids, edges))
  {
    forall m | m in live ensures HasPredecessorIn(Known(ids, edges), live, m) {
      LivePredecessor(ids, edges, live, m);
    }
    var m :| m in live;
    StuckMeansCycle(Known(ids, edges), live, m);
  }

  /** Along a walk between declared nodes, positions in a topological order increase. */
  lemma {:induction false} WalkGoesForward(ids: seq<NodeId>, edges: seq<Edge>, order: seq<NodeId>, a: NodeId,
                                           b: NodeId, n: nat)
    requires IsTopoOrder(ids, edges, order)
    requires n > 0 && Walk(Known(ids, edges), a, b, n)
    ensures exists i, j :: 0 <= i < j < |order| && order[i] == a && order[j] == b
    decreases n
  {
    var c :| Walk(Known(ids, edges), a, c, n - 1) && HasEdge(Known(ids, edges), c, b);
    var e :| e in Known(ids, edges) && e.src == c && e.dst == b;
    assert HasEdge(edges, c, b);
    assert b in Elements(order) && c in Elements(order);
    var j :| 0 <= j < |order| && order[j] == b;
    if n == 1 {
      var i :| 0 <= i < |order| && order[i] == a;
    } else {
      WalkGoesForward(ids, edges, order, a, c, n - 1);
      var i, k :| 0 <= i < k < |order| && order[i] == a && order[k] == c;
      assert k < j;
    }
  }

  lemma OrderedMeansAcyclic(ids: seq<NodeId>, edges: seq<Edge>, order: seq<NodeId>)
    requires IsTopoOrder(ids, edges, order)
    ensures !Cyclic(Known(ids, edges))
  {
    if Cyclic(Known(ids, edges)) {
      var a :| Reaches(Known(ids, edges), a, a);
      var n: nat :| n > 0 && Walk(Known(ids, edges), a, a, n);
      WalkGoesForward(ids, edges, order, a, a, n);
    }
  }

  // ---------------------------------------------------------------- the algorithm

  ghost predicate Counts(ids: seq<NodeId>, edges: seq<Edge>, live: set<NodeId>, inDegree: map<NodeId, int>) {
    && inDegree.Keys == Elements(ids)
    && forall m :: m in inDegree ==> inDegree[m] == InDegree(edges, live, m)
  }

  /** `in_degree` before anything has run. */
  method InitialDegrees(ids: seq<NodeId>, edges: seq<Edge>) returns (inDegree: map<NodeId, int>)
    ensures Counts(ids, edges, Elements(ids), inDegree)
  {
    inDegree := map n | n in ids :: 0;
    for i := 0 to |edges|
      invariant Counts(ids, edges[..i], Elements(ids), inDegree)
    {
      var e := edges[i];
      forall m ensures InDegree(edges[..i + 1], Elements(ids), m)
          == InDegree(edges[..i], Elements(ids), m) + if e.dst == m && e.src in Elements(ids) then 1 else 0 {
        InDegreeStep(edges, i, Elements(ids), m);
      }
      if e.dst in inDegree && e.src in ids {
        inDegree := inDegree[e.dst := inDegree[e.dst] + 1];
      }
    }
    assert edges[..|edges|] == edges;
  }

  lemma {:induction false} InDegreePrefix(edges: seq<Edge>, k: nat, live: set<NodeId>, m: NodeId)
    requires k <= |edges|
    ensures InDegree(edges[..k], live, m) <= InDegree(edges, live, m)
    decreases |edges| - k
  {
    if k == |edges| {
      assert edges[..k] == edges;
    } else {
      InDegreeStep(edges, k, live, m);
      InDegreePrefix(edges, k + 1, live, m);
    }
  }

  /** The in-degrees after the first `i` edges out of `n` have been taken away. */
  ghost predicate Lowered(edges: seq<Edge>, n: NodeId, i: nat, start: map<NodeId, int>, inDegree: map<NodeId, int>)
    requires i <= |OutEdges(edges, n)|
  {
    && inDegree.Keys == start.Keys
    && forall m :: m in start ==> inDegree[m] == start[m] - InDegree(OutEdges(edges, n)[..i], {n}, m)
  }

  /** The nodes whose in-degree has reached zero. */
  ghost predicate NewlyZero(start: map<NodeId, int>, inDegree: map<NodeId, int>, newly: seq<NodeId>) {
    && Distinct(newly)
    && forall m :: m in newly <==> m in start && m in inDegree && inDegree[m] == 0 && start[m] > 0
  }

  lemma LoweredOne(edges: seq<Edge>, n: NodeId, i: nat, start: map<NodeId, int>, inDegree: map<NodeId, int>)
    requires i < |OutEdges(edges, n)| && Lowered(edges, n, i, start, inDegree)
    ensures var next := OutEdges(edges, n)[i].dst;
            Lowered(edges, n, i + 1, start, if next in inDegree then inDegree[next := inDegree[next] - 1] else inDegree)
  {
    var out := OutEdges(edges, n);
    assert out[i] in out;
    forall m ensures InDegree(out[..i + 1], {n}, m) == InDegree(out[..i], {n}, m) + if out[i].dst == m then 1 else 0 {
      InDegreeStep(out, i, {n}, m);
    }
  }

  /** An edge not yet taken away still counts. */
  lemma StillCounted(ids: seq<NodeId>, edges: seq<Edge>, live: set<NodeId>, n: NodeId, i: nat,
                     start: map<NodeId, int>, inDegree: map<NodeId, int>)
    requires n in live && Counts(ids, edges, live, start)
    requires i < |OutEdges(edges, n)| && Lowered(edges, n, i, start, inDegree)
    ensures var next := OutEdges(edges, n)[i].dst; next in inDegree ==> 0 < inDegree[next] <= start[next]
  {
    var out := OutEdges(edges, n);
    assert out[i] in out;
    InDegreeStep(out, i, {n}, out[i].dst);
    InDegreePrefix(out, i + 1, {n}, out[i].dst);
    InDegreeRemove(edges, live, n, out[i].dst);
  }

  lemma NewlyStep(start: map<NodeId, int>, inDegree: map<NodeId, int>, newly: seq<NodeId>, next: NodeId)
    requires NewlyZero(start, inDegree, newly) && next in start && next in inDegree && 0 < inDegree[next] <= start[next]
    ensures var lower := inDegree[next := inDegree[next] - 1];
            NewlyZero(start, lower, if lower[next] == 0 then newly + [next] else newly)
  {
    assert next !in newly;
  }

  lemma LoweredAll(ids: seq<NodeId>, edges: seq<Edge>, live: set<NodeId>, n: NodeId, start: map<NodeId, int>,
                   inDegree: map<NodeId, int>)
    requires n in live && Counts(ids, edges, live, start) && Lowered(edges, n, |OutEdges(edges, n)|, start, inDegree)
    ensures Counts(ids, edges, live - {n}, inDegree)
  {
    var out := OutEdges(edges, n);
    assert out[..|out|] == out;
    forall m | m in inDegree ensures inDegree[m] == InDegree(edges, live - {n}, m) {
      InDegreeRemove(edges, live, n, m);
    }
  }

  /** Output `n`: lower its successors' in-degrees and collect those that reach zero. */
  method Release(ids: seq<NodeId>, edges: seq<Edge>, n: NodeId, start: map<NodeId, int>, ghost live: set<NodeId>)
    returns (inDegree: map<NodeId, int>, newly: seq<NodeId>)
    requires n in live && Counts(ids, edges, live, start)
    ensures Counts(ids, edges, live - {n}, inDegree)
    ensures NewlyZero(start, inDegree, newly)
  {
    inDegree, newly := start, [];
    var out := OutEdges(edges, n);
    for i := 0 to |out|
      invariant Lowered(edges, n, i, start, inDegree) && NewlyZero(start, inDegree, newly)
    {
      LoweredOne(edges, n, i, start, inDegree);
      StillCounted(ids, edges, live, n, i, start, inDegree);
      var next := out[i].dst;
      if next in inDegree {
        NewlyStep(start, inDegree, newly, next);
        inDegree := inDegree[next := inDegree[next] - 1];
        if inDegree[next] == 0 {
          newly := newly + [next];
        }
      }
    }
    LoweredAll(ids, edges, live, n, start, inDegree);
  }

  /** A list of exactly the live nodes without a live predecessor, each once. */
  ghost predicate Waiting(edges: seq<Edge>, live: set<NodeId>, waiting: seq<NodeId>) {
    && Distinct(waiting)
    && forall m :: m in Elements(waiting) <==> m in live && InDegree(edges, live, m) == 0
  }

  /** The ready list holds, in rank order, the live nodes without a live predecessor. */
  ghost predicate ReadyList(edges: seq<Edge>, live: set<NodeId>, rank: map<NodeId, nat>, ready: seq<NodeId>) {
    && SortedByRank(rank, ready)
    && forall m :: m in Elements(ready) <==> m in live && InDegree(edges, live, m) == 0
  }

  ghost predicate IsRank(ids: seq<NodeId>, rank: map<NodeId, nat>) {
    && rank.Keys == Elements(ids)
    && forall n :: n in rank ==> rank[n] == DeclIndex(ids, n)
  }

  /** `order_index`: later declarations of an id overwrite earlier ones. */
  method OrderIndex(ids: seq<NodeId>) returns (rank: map<NodeId, nat>)
    ensures IsRank(ids, rank)
  {
    rank := map[];
    for i := 0 to |ids|
      invariant IsRank(ids[..i], rank)
    {
      rank := rank[ids[i] := i];
      assert ids[..i + 1][..i] == ids[..i];
      assert ids[..i + 1] == ids[..i] + [ids[i]];
      assert Elements(ids[..i + 1]) == Elements(ids[..i]) + {ids[i]};
    }
    assert ids[..|ids|] == ids;
  }

  /** The first declared-order node of the ready list is the greedy choice. */
  lemma ReadyHeadIsNext(ids: seq<NodeId>, edges: seq<Edge>, order: seq<NodeId>, rank: map<NodeId, nat>,
                        ready: seq<NodeId>)
    requires IsRank(ids, rank) && ready != []
    requires ReadyList(edges, Elements(ids) - Elements(order), rank, ready)
    ensures IsNext(ids, edges, order, ready[0])
  {
    assert ready[0] in Elements(ready);
    forall m | m in Elements(ready) ensures rank[ready[0]] <= rank[m] {
      var i :| 0 <= i < |ready| && ready[i] == m;
    }
  }

  lemma NewlyAre(ids: seq<NodeId>, edges: seq<Edge>, live: set<NodeId>, n: NodeId,
                 before: map<NodeId, int>, after: map<NodeId, int>, newly: seq<NodeId>, m: NodeId)
    requires n in live && live <= Elements(ids)
    requires (forall x :: x in Elements(ids) - live ==> InDegree(edges, live, x) == 0)
    requires Counts(ids, edges, live, before) && Counts(ids, edges, live - {n}, after)
    requires NewlyZero(before, after, newly)
    ensures m in newly <==> m in live && InDegree(edges, live, m) > 0 && InDegree(edges, live - {n}, m) == 0
  {
  }

  /** Taking the first of the waiting nodes and adding the newly released ones. */
  lemma WaitingAfterRelease(ids: seq<NodeId>, edges: seq<Edge>, live: set<NodeId>, waiting: seq<NodeId>,
                            before: map<NodeId, int>, after: map<NodeId, int>, newly: seq<NodeId>)
    requires live <= Elements(ids) && (forall x :: x in Elements(ids) - live ==> InDegree(edges, live, x) == 0)
    requires waiting != [] && Waiting(edges, live, waiting)
    requires Counts(ids, edges, live, before) && Counts(ids, edges, live - {waiting[0]}, after)
    requires NewlyZero(before, after, newly)
    ensures Waiting(edges, live - {waiting[0]}, waiting[1..] + newly)
  {
    var n, rest := waiting[0], waiting[1..];
    assert waiting == [n] + rest;
    ElementsCons(n, rest);
    assert n in Elements(waiting) && n !in Elements(rest);
    forall m ensures m in Elements(rest + newly) <==> m in live - {n} && InDegree(edges, live - {n}, m) == 0 {
      NewlyAre(ids, edges, live, n, before, after, newly, m);
      InDegreeRemove(edges, live, n, m);
    }
    DistinctConcat(rest, newly);
  }

  lemma DistinctConcat(a: seq<NodeId>, b: seq<NodeId>)
    requires Distinct(a) && Distinct(b) && forall m :: m in b ==> m !in a
    ensures Distinct(a + b)
  {
    var c := a + b;
    forall i, j | 0 <= i < j < |c| ensures c[i] != c[j] {
      if i < |a| <= j {
        assert a[i] in a && b[j - |a|] in b;
      }
    }
  }

  ghost predicate KahnInvariant(ids: seq<NodeId>, edges: seq<Edge>, rank: map<NodeId, nat>,
                                order: seq<NodeId>, inDegree: map<NodeId, int>, ready: seq<NodeId>) {
    var live := Elements(ids) - Elements(order);
    && IsRank(ids, rank)
    && Greedy(ids, edges, order)
    && Elements(order) <= Elements(ids)
    && (forall m :: m in Elements(order) ==> InDegree(edges, live, m) == 0)
    && Counts(ids, edges, live, inDegree)
    && ReadyList(edges, live, rank, ready)
  }

  lemma DoneStayDone(edges: seq<Edge>, live: set<NodeId>, done: set<NodeId>, n: NodeId)
    requires n in live && forall m :: m in done + {n} ==> InDegree(edges, live, m) == 0
    ensures forall m :: m in done + {n} ==> InDegree(edges, live - {n}, m) == 0
  {
    forall m | m in done + {n} ensures InDegree(edges, live - {n}, m) == 0 {
      InDegreeRemove(edges, live, n, m);
    }
  }

  lemma SortKeepsReady(ids: seq<NodeId>, edges: seq<Edge>, live: set<NodeId>, rank: map<NodeId, nat>, next: seq<NodeId>)
    requires IsRank(ids, rank) && live <= Elements(ids)
    requires Waiting(edges, live, next)
    ensures forall i :: 0 <= i < |next| ==> next[i] in rank
    ensures forall i, j :: 0 <= i < j < |next| ==> rank[next[i]] != rank[next[j]]
    ensures ReadyList(edges, live, rank, Sort(rank, next))
  {
    forall i | 0 <= i < |next| ensures next[i] in rank && ids[rank[next[i]]] == next[i] {
      assert next[i] in Elements(next);
    }
  }

  lemma OrderIsComplete(ids: seq<NodeId>, edges: seq<Edge>, order: seq<NodeId>)
    requires Greedy(ids, edges, order) && Elements(order) <= Elements(ids)
    ensures |order| == |Elements(ids)| <==> Elements(order) == Elements(ids)
  {
    GreedyIsDistinct(ids, edges, order);
    DistinctLength(order);
    assert |Elements(ids)| == |Elements(order)| + |Elements(ids) - Elements(order)|;
  }

  ghost predicate LeastTopoOrder(ids: seq<NodeId>, edges: seq<Edge>, order: seq<NodeId>) {
    && IsTopoOrder(ids, edges, order)
    && forall p :: IsTopoOrder(ids, edges, p) ==> p == order || LexLess(ids, order, p)
  }

  lemma GreedyIsLeastTopoOrder(ids: seq<NodeId>, edges: seq<Edge>, order: seq<NodeId>)
    requires Greedy(ids, edges, order) && Elements(order) == Elements(ids)
    ensures LeastTopoOrder(ids, edges, order)
    ensures !Cyclic(Known(ids, edges))
  {
    GreedyIsTopological(ids, edges, order);
    OrderedMeansAcyclic(ids, edges, order);
    forall p | IsTopoOrder(ids, edges, p) ensures p == order || LexLess(ids, order, p) {
      GreedyIsLeast(ids, edges, order, p);
    }
  }

  lemma EmptyReadyMeansCycle(ids: seq<NodeId>, edges: seq<Edge>, rank: map<NodeId, nat>, live: set<NodeId>)
    requires live != {} && live <= Elements(ids)
    requires ReadyList(edges, live, rank, [])
    ensures Cyclic(Known(ids, edges))
  {
    assert Elements([]) == {};
    NoneReadyMeansCycle(ids, edges, live);
  }

  /** When Kahn's loop stops, a short order and a cycle are the same thing. */
  lemma KahnFinished(ids: seq<NodeId>, edges: seq<Edge>, rank: map<NodeId, nat>, order: seq<NodeId>)
    requires Greedy(ids, edges, order) && Elements(order) <= Elements(ids)
    requires ReadyList(edges, Elements(ids) - Elements(order), rank, [])
    ensures |order| == |Elements(ids)| ==> LeastTopoOrder(ids, edges, order) && !Cyclic(Known(ids, edges))
    ensures |order| != |Elements(ids)| ==> Cyclic(Known(ids, edges))
  {
    OrderIsComplete(ids, edges, order);
    if Elements(order) == Elements(ids) {
      GreedyIsLeastTopoOrder(ids, edges, order);
    } else {
      var m :| m in Elements(ids) && m !in Elements(order);
      assert m in Elements(ids) - Elements(order);
      EmptyReadyMeansCycle(ids, edges, rank, Elements(ids) - Elements(order));
    }
  }

  /** One round of Kahn's loop keeps the invariant and outputs the head of the ready list. */
  method KahnRound(ids: seq<NodeId>, edges: seq<Edge>, rank: map<NodeId, nat>,
                   order: seq<NodeId>, inDegree: map<NodeId, int>, ready: seq<NodeId>)
    returns (inDegree': map<NodeId, int>, ready': seq<NodeId>)
    requires KahnInvariant(ids, edges, rank, order, inDegree, ready) && ready != []
    ensures KahnInvariant(ids, edges, rank, order + [ready[0]], inDegree', ready')
    ensures ready[0] in ids && ready[0] !in order
  {
    var n := ready[0];
    ghost var live, live' := NextIsTaken(ids, edges, rank, order, inDegree, ready);
    var newly;
    inDegree', newly := Release(ids, edges, n, inDegree, live);
    WaitingAfterRelease(ids, edges, live, ready, inDegree, inDegree', newly);
    var next := ready[1..] + newly;
    SortKeepsReady(ids, edges, live', rank, next);
    ready' := Sort(rank, next);
  }

  /** Taking the head of the ready list keeps what the invariant says of the order. */
  lemma NextIsTaken(ids: seq<NodeId>, edges: seq<Edge>, rank: map<NodeId, nat>,
                    order: seq<NodeId>, inDegree: map<NodeId, int>, ready: seq<NodeId>)
    returns (live: set<NodeId>, live': set<NodeId>)
    requires KahnInvariant(ids, edges, rank, order, inDegree, ready) && ready != []
    ensures live == Elements(ids) - Elements(order) && live' == Elements(ids) - Elements(order + [ready[0]])
    ensures live' == live - {ready[0]} && ready[0] in live && Waiting(edges, live, ready)
    ensures Greedy(ids, edges, order + [ready[0]]) && Elements(order + [ready[0]]) <= Elements(ids)
    ensures forall m :: m in Elements(order + [ready[0]]) ==> InDegree(edges, live', m) == 0
  {
    var n := ready[0];
    live := Elements(ids) - Elements(order);
    ReadyHeadIsNext(ids, edges, order, rank, ready);
    GreedySnoc(ids, edges, order, n);
    assert Elements(order + [n]) == Elements(order) + {n};
    live' := Elements(ids) - Elements(order + [n]);
    DoneStayDone(edges, live, Elements(order), n);
  }

  /** The nodes of in-degree zero, in declaration order. */
  method InitialReady(ids: seq<NodeId>, edges: seq<Edge>, rank: map<NodeId, nat>, inDegree: map<NodeId, int>)
    returns (ready: seq<NodeId>)
    requires IsRank(ids, rank) && Counts(ids, edges, Elements(ids), inDegree)
    ensures ReadyList(edges, Elements(ids), rank, ready)
  {
    var zero := [];
    for i := 0 to |ids|
      invariant Distinct(zero)
      invariant forall m :: m in zero <==> m in ids[..i] && inDegree[m] == 0
    {
      assert ids[..i + 1] == ids[..i] + [ids[i]];
      assert ids[i] in Elements(ids);
      if inDegree[ids[i]] == 0 && ids[i] !in zero {
        zero := zero + [ids[i]];
      }
    }
    assert ids[..|ids|] == ids;
    SortKeepsReady(ids, edges, Elements(ids), rank, zero);
    ready := Sort(rank, zero);
  }

  lemma KahnStart(ids: seq<NodeId>, edges: seq<Edge>, rank: map<NodeId, nat>, inDegree: map<NodeId, int>,
                  ready: seq<NodeId>)
    requires IsRank(ids, rank)
    requires Counts(ids, edges, Elements(ids), inDegree)
    requires ReadyList(edges, Elements(ids), rank, ready)
    ensures KahnInvariant(ids, edges, rank, [], inDegree, ready)
  {
    assert Elements([]) == {};
    assert Elements(ids) - Elements([]) == Elements(ids);
  }

  /** Kahn's loop, run until the ready list is empty. */
  method KahnLoop(ids: seq<NodeId>, edges: seq<Edge>, rank: map<NodeId, nat>, start: map<NodeId, int>,
                  first: seq<NodeId>)
    returns (order: seq<NodeId>)
    requires KahnInvariant(ids, edges, rank, [], start, first)
    ensures Greedy(ids, edges, order) && Elements(order) <= Elements(ids)
    ensures ReadyList(edges, Elements(ids) - Elements(order), rank, [])
  {
    var inDegree, ready := start, first;
    order := [];
    while ready != []
      invariant KahnInvariant(ids, edges, rank, order, inDegree, ready)
      decreases Elements(ids) - Elements(order)
    {
      var n := ready[0];
      inDegree, ready := KahnRound(ids, edges, rank, order, inDegree, ready);
      assert n in Elements(order + [n]) && n !in Elements(order);
      order := order + [n];
    }
  }

  /** `topo_order`: None exactly when the declared part of the graph is cyclic, and otherwise the
      least topological order by declaration index. */
  method TopoOrder(ids: seq<NodeId>, edges: seq<Edge>) returns (result: Option<seq<NodeId>>)
    ensures result.None? <==> Cyclic(Known(ids, edges))
    ensures result.Some? ==> LeastTopoOrder(ids, edges, result.value)
  {
    var rank := OrderIndex(ids);
    var inDegree := InitialDegrees(ids, edges);
    var ready := InitialReady(ids, edges, rank, inDegree);
    KahnStart(ids, edges, rank, inDegree, ready);
    var order := KahnLoop(ids, edges, rank, inDegree, ready);
    KahnFinished(ids, edges, rank, order);
    result := if |order| != |Elements(ids)| then None else Some(order);
  }
}
