/** The editor's automatic layout: longest-path layering over a Kahn queue, then one row per node
    within a layer. */
module Layout {
  import opened Graphs
  import opened Topo

  const COL_WIDTH := 260
  const ROW_HEIGHT := 130
  const X0 := 40
  const Y0 := 40

  datatype Position = Position(x: int, y: int)

  /** Some walk of exactly `k` edges ends at `m`. */
  ghost predicate WalkTo(edges: seq<Edge>, m: NodeId, k: nat) {
    exists a :: Walk(edges, a, m, k)
  }

  /** `k` is the length of the longest walk that ends at `m`. */
  ghost predicate IsLongest(edges: seq<Edge>, m: NodeId, k: nat) {
    && WalkTo(edges, m, k)
    && forall j: nat :: WalkTo(edges, m, j) ==> j <= k
  }

  lemma WalkToExtends(edges: seq<Edge>, a: NodeId, b: NodeId, k: nat)
    requires WalkTo(edges, a, k) && HasEdge(edges, a, b)
    ensures WalkTo(edges, b, k + 1)
  {
    var s :| Walk(edges, s, a, k);
    assert Walk(edges, s, b, k + 1);
  }

  // ---------------------------------------------------------------- layering

  /** Layers are attained by walks, and a finished node pushes its successors further right. */
  ghost predicate Layering(g: seq<Edge>, done: set<NodeId>, layer: map<NodeId, nat>) {
    && (forall m :: m in layer ==> WalkTo(g, m, layer[m]))
    && (forall a :: a in done ==> a in layer && IsLongest(g, a, layer[a]))
    && forall a, b :: a in done && HasEdge(g, a, b) ==> b in layer && layer[a] < layer[b]
  }

  /** The layer that the loop gives a successor of a node at layer `l`. */
  function Pushed(layer: map<NodeId, nat>, m: NodeId, l: nat): nat {
    if m in layer && layer[m] > l + 1 then layer[m] else l + 1
  }

  ghost predicate Relaxed(g: seq<Edge>, n: NodeId, before: map<NodeId, nat>, after: map<NodeId, nat>)
    requires n in before
  {
    && (forall m :: m in after <==> m in before || HasEdge(g, n, m))
    && forall m :: m in after ==>
         after[m] == if HasEdge(g, n, m) then Pushed(before, m, before[n]) else if m in before then before[m] else 0
  }

  /** A node all of whose predecessors are finished sits at its longest walk. */
  lemma ReadyIsLongest(g: seq<Edge>, done: set<NodeId>, layer: map<NodeId, nat>, n: NodeId)
    requires Layering(g, done, layer) && n in layer
    requires forall a :: HasEdge(g, a, n) ==> a in done
    ensures IsLongest(g, n, layer[n])
  {
    forall j: nat | WalkTo(g, n, j) ensures j <= layer[n] {
      if j > 0 {
        var s :| Walk(g, s, n, j);
        var c :| Walk(g, s, c, j - 1) && HasEdge(g, c, n);
        assert WalkTo(g, c, j - 1);
      }
    }
  }

  lemma LayeringStep(g: seq<Edge>, done: set<NodeId>, before: map<NodeId, nat>, n: NodeId, after: map<NodeId, nat>)
    requires Layering(g, done, before) && n in before && n !in done
    requires forall a :: HasEdge(g, a, n) ==> a in done
    requires forall a :: a in done ==> !HasEdge(g, n, a)
    requires Relaxed(g, n, before, after)
    ensures Layering(g, done + {n}, after)
  {
    ReadyIsLongest(g, done, before, n);
    forall m | m in after ensures WalkTo(g, m, after[m]) {
      if HasEdge(g, n, m) {
        WalkToExtends(g, n, m, before[n]);
      }
    }
  }

  // ---------------------------------------------------------------- the queue loop

  ghost predicate Hit(out: seq<Edge>, i: nat, m: NodeId)
    requires i <= |out|
  {
    exists j :: 0 <= j < i && out[j].dst == m
  }

  ghost predicate RelaxedBy(out: seq<Edge>, i: nat, l: nat, before: map<NodeId, nat>, after: map<NodeId, nat>)
    requires i <= |out|
  {
    && (forall m :: m in after <==> m in before || Hit(out, i, m))
    && forall m :: m in after ==>
         after[m] == if Hit(out, i, m) then Pushed(before, m, l) else if m in before then before[m] else 0
  }

  lemma RelaxedByAll(g: seq<Edge>, n: NodeId, before: map<NodeId, nat>, after: map<NodeId, nat>)
    requires n in before
    requires var out := OutEdges(g, n); RelaxedBy(out, |out|, before[n], before, after)
    ensures Relaxed(g, n, before, after)
  {
    var out := OutEdges(g, n);
    forall m ensures Hit(out, |out|, m) <==> HasEdge(g, n, m) {
      if HasEdge(g, n, m) {
        var e :| e in g && e.src == n && e.dst == m;
        var j :| 0 <= j < |out| && out[j] == e;
      }
      if Hit(out, |out|, m) {
        var j :| 0 <= j < |out| && out[j].dst == m;
        assert out[j] in g;
      }
    }
  }

  lemma RelaxedByStep(out: seq<Edge>, i: nat, l: nat, before: map<NodeId, nat>, after: map<NodeId, nat>)
    requires i < |out| && RelaxedBy(out, i, l, before, after)
    ensures RelaxedBy(out, i + 1, l, before, after[out[i].dst := Pushed(after, out[i].dst, l)])
  {
    forall m ensures Hit(out, i + 1, m) <==> Hit(out, i, m) || m == out[i].dst {
      if m == out[i].dst {
        assert out[i].dst == m;
      }
    }
  }

  /** Visit the successors of a dequeued node: push their layers right, lower their in-degrees and
      enqueue those that reach zero. */
  method Relax(ids: seq<NodeId>, g: seq<Edge>, n: NodeId, before: map<NodeId, nat>, start: map<NodeId, int>,
               pending: seq<NodeId>, ghost live: set<NodeId>)
    returns (layer: map<NodeId, nat>, inDegree: map<NodeId, int>, queue: seq<NodeId>, ghost newly: seq<NodeId>)
    requires forall e :: e in g ==> e.src in ids && e.dst in ids
    requires n in live && n in before && !HasEdge(g, n, n)
    requires Counts(ids, g, live, start)
    ensures Relaxed(g, n, before, layer)
    ensures Counts(ids, g, live - {n}, inDegree)
    ensures queue == pending + newly && NewlyZero(start, inDegree, newly)
  {
    layer, inDegree, queue, newly := before, start, pending, [];
    var out := OutEdges(g, n);
    RelaxStart(g, n, before, start);
    for i := 0 to |out|
      invariant Relaxing(g, n, i, before, layer, start, inDegree, newly)
      invariant queue == pending + newly
    {
      layer, inDegree, queue, newly :=
        RelaxEdge(ids, g, n, i, out[i].dst, before, layer, start, inDegree, queue, pending, newly, live);
    }
    RelaxEnd(ids, g, n, before, layer, start, inDegree, newly, live);
  }

  /** Visit one successor. */
  method RelaxEdge(ghost ids: seq<NodeId>, ghost g: seq<Edge>, n: NodeId, ghost i: nat, next: NodeId,
                   ghost before: map<NodeId, nat>,
                   layer: map<NodeId, nat>, ghost start: map<NodeId, int>, inDegree: map<NodeId, int>,
                   queue: seq<NodeId>, ghost pending: seq<NodeId>, ghost newly: seq<NodeId>, ghost live: set<NodeId>)
    returns (layer': map<NodeId, nat>, inDegree': map<NodeId, int>, queue': seq<NodeId>, ghost newly': seq<NodeId>)
    requires forall e :: e in g ==> e.src in ids && e.dst in ids
    requires n in live && !HasEdge(g, n, n) && Counts(ids, g, live, start)
    requires i < |OutEdges(g, n)| && next == OutEdges(g, n)[i].dst
    requires Relaxing(g, n, i, before, layer, start, inDegree, newly) && queue == pending + newly
    ensures Relaxing(g, n, i + 1, before, layer', start, inDegree', newly') && queue' == pending + newly'
  {
    ghost var l, d, w := RelaxStep(ids, g, n, i, next, before, layer, start, inDegree, newly, live);
    AppendBehind(pending, newly, next);
    layer' := layer[next := Pushed(layer, next, layer[n])];
    inDegree' := inDegree[next := inDegree[next] - 1];
    queue' := if inDegree'[next] == 0 then queue + [next] else queue;
    newly' := w;
  }

  lemma AppendBehind(a: seq<NodeId>, b: seq<NodeId>, x: NodeId)
    ensures a + b + [x] == a + (b + [x])
  {
  }

  /** After `i` edges out of `n`. */
  ghost predicate Relaxing(g: seq<Edge>, n: NodeId, i: nat, before: map<NodeId, nat>, layer: map<NodeId, nat>,
                           start: map<NodeId, int>, inDegree: map<NodeId, int>, newly: seq<NodeId>) {
    && n in before && i <= |OutEdges(g, n)|
    && RelaxedBy(OutEdges(g, n), i, before[n], before, layer)
    && Lowered(g, n, i, start, inDegree) && NewlyZero(start, inDegree, newly)
  }

  lemma RelaxEnd(ids: seq<NodeId>, g: seq<Edge>, n: NodeId, before: map<NodeId, nat>, layer: map<NodeId, nat>,
                 start: map<NodeId, int>, inDegree: map<NodeId, int>, newly: seq<NodeId>, live: set<NodeId>)
    requires n in live && Counts(ids, g, live, start)
    requires Relaxing(g, n, |OutEdges(g, n)|, before, layer, start, inDegree, newly)
    ensures Relaxed(g, n, before, layer) && Counts(ids, g, live - {n}, inDegree) && NewlyZero(start, inDegree, newly)
  {
    RelaxedByAll(g, n, before, layer);
    LoweredAll(ids, g, live, n, start, inDegree);
  }

  lemma RelaxStart(g: seq<Edge>, n: NodeId, before: map<NodeId, nat>, start: map<NodeId, int>)
    requires n in before
    ensures Relaxing(g, n, 0, before, before, start, start, [])
  {
    assert OutEdges(g, n)[..0] == [];
  }

  lemma RelaxStep(ids: seq<NodeId>, g: seq<Edge>, n: NodeId, i: nat, next: NodeId, before: map<NodeId, nat>,
                  layer: map<NodeId, nat>, start: map<NodeId, int>, inDegree: map<NodeId, int>, newly: seq<NodeId>,
                  live: set<NodeId>)
    returns (layer': map<NodeId, nat>, inDegree': map<NodeId, int>, newly': seq<NodeId>)
    requires forall e :: e in g ==> e.src in ids && e.dst in ids
    requires n in live && !HasEdge(g, n, n) && Counts(ids, g, live, start)
    requires i < |OutEdges(g, n)| && next == OutEdges(g, n)[i].dst
    requires Relaxing(g, n, i, before, layer, start, inDegree, newly)
    ensures n in layer && layer' == layer[next := Pushed(layer, next, layer[n])]
    ensures next in inDegree && inDegree' == inDegree[next := inDegree[next] - 1]
    ensures newly' == if inDegree'[next] == 0 then newly + [next] else newly
    ensures Relaxing(g, n, i + 1, before, layer', start, inDegree', newly')
  {
    var out := OutEdges(g, n);
    assert out[i] in out;
    assert out[i].dst in Elements(ids);
    RelaxedByStep(out, i, before[n], before, layer);
    OwnLayerKept(g, n, i, before, layer);
    LoweredOne(g, n, i, start, inDegree);
    StillCounted(ids, g, live, n, i, start, inDegree);
    NewlyStep(start, inDegree, newly, next);
    layer' := layer[next := Pushed(layer, next, layer[n])];
    inDegree' := inDegree[next := inDegree[next] - 1];
    newly' := if inDegree'[next] == 0 then newly + [next] else newly;
  }

  lemma OwnLayerKept(g: seq<Edge>, n: NodeId, i: nat, before: map<NodeId, nat>, layer: map<NodeId, nat>)
    requires n in before && !HasEdge(g, n, n) && i <= |OutEdges(g, n)|
    requires RelaxedBy(OutEdges(g, n), i, before[n], before, layer)
    ensures n in layer && layer[n] == before[n]
  {
    NotHit(g, n, i);
  }

  lemma NotHit(g: seq<Edge>, n: NodeId, i: nat)
    requires !HasEdge(g, n, n) && i <= |OutEdges(g, n)|
    ensures !Hit(OutEdges(g, n), i, n)
  {
    var out := OutEdges(g, n);
    forall j | 0 <= j < i ensures out[j].dst != n {
      assert out[j] in out;
      assert out[j] in g;
    }
  }

  ghost predicate LayoutInvariant(ids: seq<NodeId>, g: seq<Edge>, ordered: seq<NodeId>,
                                  layer: map<NodeId, nat>, inDegree: map<NodeId, int>, queue: seq<NodeId>) {
    var live := Elements(ids) - Elements(ordered);
    && Elements(ordered) <= Elements(ids)
    && (forall m :: m in Elements(ordered) ==> InDegree(g, live, m) == 0)
    && Counts(ids, g, live, inDegree)
    && Waiting(g, live, queue)
    && Elements(queue) <= layer.Keys <= Elements(ids)
    && Layering(g, Elements(ordered), layer)
  }

  /** A released node is a successor of the released one. */
  lemma NewlyAreSuccessors(ids: seq<NodeId>, g: seq<Edge>, live: set<NodeId>, n: NodeId,
                           before: map<NodeId, int>, after: map<NodeId, int>, m: NodeId)
    requires n in live && Counts(ids, g, live, before) && Counts(ids, g, live - {n}, after)
    requires m in before && after[m] == 0 && before[m] > 0
    ensures HasEdge(g, n, m)
  {
    InDegreeRemove(g, live, n, m);
    InDegreeOut(g, n, m);
    InDegreePositive(g, {n}, m);
  }

  /** What the degrees say about a ready node's neighbours. */
  lemma ReadyNeighbours(ids: seq<NodeId>, g: seq<Edge>, done: set<NodeId>, n: NodeId)
    requires forall e :: e in g ==> e.src in ids && e.dst in ids
    requires done <= Elements(ids) && n in Elements(ids) - done
    requires InDegree(g, Elements(ids) - done, n) == 0
    requires forall m :: m in done ==> InDegree(g, Elements(ids) - done, m) == 0
    ensures forall a :: HasEdge(g, a, n) ==> a in done
    ensures forall a :: a in done ==> !HasEdge(g, n, a)
    ensures !HasEdge(g, n, n)
  {
    InDegreePositive(g, Elements(ids) - done, n);
    forall a | HasEdge(g, a, n) ensures a in done {
      var e :| e in g && e.src == a && e.dst == n;
      assert a in Elements(ids);
    }
    forall a | a in done ensures !HasEdge(g, n, a) {
      InDegreePositive(g, Elements(ids) - done, a);
    }
  }

  /** Dequeue one node. */
  method LayoutRound(ids: seq<NodeId>, g: seq<Edge>, ordered: seq<NodeId>,
                     layer: map<NodeId, nat>, inDegree: map<NodeId, int>, queue: seq<NodeId>)
    returns (layer': map<NodeId, nat>, inDegree': map<NodeId, int>, queue': seq<NodeId>)
    requires forall e :: e in g ==> e.src in ids && e.dst in ids
    requires LayoutInvariant(ids, g, ordered, layer, inDegree, queue) && queue != []
    ensures LayoutInvariant(ids, g, ordered + [queue[0]], layer', inDegree', queue')
    ensures queue[0] in ids && queue[0] !in ordered
  {
    var n := queue[0];
    assert n in Elements(queue);
    ghost var live, done := Elements(ids) - Elements(ordered), Elements(ordered);
    ReadyNeighbours(ids, g, done, n);
    ghost var newly;
    layer', inDegree', queue', newly := Relax(ids, g, n, layer, inDegree, queue[1..], live);
    LayeringStep(g, done, layer, n, layer');
    RoundKeeps(ids, g, ordered, queue, inDegree, inDegree', newly, layer, layer');
  }

  /** What is left to show of the invariant once the dequeued node is relaxed. */
  lemma RoundKeeps(ids: seq<NodeId>, g: seq<Edge>, ordered: seq<NodeId>, queue: seq<NodeId>, before: map<NodeId, int>,
                   after: map<NodeId, int>, newly: seq<NodeId>, layer: map<NodeId, nat>, layer': map<NodeId, nat>)
    requires forall e :: e in g ==> e.src in ids && e.dst in ids
    requires queue != [] && LayoutInvariant(ids, g, ordered, layer, before, queue)
    requires Counts(ids, g, Elements(ids) - Elements(ordered) - {queue[0]}, after) && NewlyZero(before, after, newly)
    requires queue[0] in layer && Relaxed(g, queue[0], layer, layer')
    requires Layering(g, Elements(ordered) + {queue[0]}, layer')
    ensures LayoutInvariant(ids, g, ordered + [queue[0]], layer', after, queue[1..] + newly)
  {
    var n, done := queue[0], Elements(ordered);
    var live := Elements(ids) - done;
    assert n in Elements(queue);
    assert Elements(ordered + [n]) == done + {n};
    assert Elements(ids) - Elements(ordered + [n]) == live - {n};
    WaitingAfterRelease(ids, g, live, queue, before, after, newly);
    DoneStayDone(g, live, done, n);
    QueueHasLayers(ids, g, live, queue, before, after, newly, layer, layer');
  }

  lemma QueueHasLayers(ids: seq<NodeId>, g: seq<Edge>, live: set<NodeId>, queue: seq<NodeId>, before: map<NodeId, int>,
                       after: map<NodeId, int>, newly: seq<NodeId>, layer: map<NodeId, nat>, layer': map<NodeId, nat>)
    requires forall e :: e in g ==> e.src in ids && e.dst in ids
    requires queue != [] && queue[0] in live && Elements(queue) <= layer.Keys <= Elements(ids)
    requires Counts(ids, g, live, before) && Counts(ids, g, live - {queue[0]}, after) && NewlyZero(before, after, newly)
    requires queue[0] in layer && Relaxed(g, queue[0], layer, layer')
    ensures Elements(queue[1..] + newly) <= layer'.Keys <= Elements(ids)
  {
    var n := queue[0];
    forall m | m in Elements(queue[1..] + newly) ensures m in layer' {
      if m in newly {
        NewlyAreSuccessors(ids, g, live, n, before, after, m);
      } else {
        assert m in queue[1..];
        assert m in Elements(queue);
      }
    }
    forall m | m in layer' ensures m in Elements(ids) {
      if HasEdge(g, n, m) {
        var e :| e in g && e.src == n && e.dst == m;
      }
    }
  }

  lemma AllOrdered(ids: seq<NodeId>, g: seq<Edge>, ordered: seq<NodeId>)
    requires Waiting(g, Elements(ids) - Elements(ordered), [])
    requires !Cyclic(g)
    ensures Elements(ids) <= Elements(ordered)
  {
    var live := Elements(ids) - Elements(ordered);
    assert Elements([]) == {};
    forall m | m in live ensures HasPredecessorIn(g, live, m) {
      InDegreePositive(g, live, m);
    }
    forall m | m in Elements(ids) ensures m in Elements(ordered) {
      if m in live {
        StuckMeansCycle(g, live, m);
      }
    }
  }

  /** The queue loop: layers of every node it reaches; of all nodes when there is no cycle. */
  method AssignLayers(ids: seq<NodeId>, g: seq<Edge>) returns (layer: map<NodeId, nat>, ordered: seq<NodeId>)
    requires forall e :: e in g ==> e.src in ids && e.dst in ids
    requires Distinct(ids)
    ensures layer.Keys <= Elements(ids) && Elements(ordered) <= layer.Keys
    ensures Layering(g, Elements(ordered), layer)
    ensures !Cyclic(g) ==> Elements(ordered) == Elements(ids)
  {
    var inDegree := InitialDegrees(ids, g);
    var queue := InitialQueue(ids, g, inDegree);
    layer := map n | n in queue :: 0;
    ordered := [];
    LayersStart(ids, g, layer, inDegree, queue);
    while queue != []
      invariant LayoutInvariant(ids, g, ordered, layer, inDegree, queue)
      decreases Elements(ids) - Elements(ordered)
    {
      var n := queue[0];
      layer, inDegree, queue := LayoutRound(ids, g, ordered, layer, inDegree, queue);
      assert n in Elements(ordered + [n]) && n !in Elements(ordered);
      ordered := ordered + [n];
    }
    if !Cyclic(g) {
      AllOrdered(ids, g, ordered);
    }
  }

  lemma LayersStart(ids: seq<NodeId>, g: seq<Edge>, layer: map<NodeId, nat>, inDegree: map<NodeId, int>,
                    queue: seq<NodeId>)
    requires Counts(ids, g, Elements(ids), inDegree)
    requires Waiting(g, Elements(ids), queue)
    requires layer == map n | n in queue :: 0
    ensures LayoutInvariant(ids, g, [], layer, inDegree, queue)
  {
    assert Elements([]) == {};
    assert Elements(ids) - Elements([]) == Elements(ids);
    forall m | m in layer ensures WalkTo(g, m, layer[m]) {
      assert Walk(g, m, m, 0);
    }
    forall m | m in queue ensures m in Elements(ids) {
      assert m in Elements(queue);
    }
  }

  /** `ids.filter((id) => indeg.get(id) === 0)`. */
  method InitialQueue(ids: seq<NodeId>, g: seq<Edge>, inDegree: map<NodeId, int>) returns (queue: seq<NodeId>)
    requires Distinct(ids) && Counts(ids, g, Elements(ids), inDegree)
    ensures Waiting(g, Elements(ids), queue)
  {
    queue := [];
    for i := 0 to |ids|
      invariant Distinct(queue)
      invariant forall m :: m in queue <==> m in ids[..i] && inDegree[m] == 0
    {
      assert ids[..i + 1] == ids[..i] + [ids[i]];
      assert ids[i] in Elements(ids);
      if inDegree[ids[i]] == 0 {
        assert ids[i] !in ids[..i];
        queue := queue + [ids[i]];
      }
    }
    assert ids[..|ids|] == ids;
  }

  // ---------------------------------------------------------------- rows

  /** How many of the first `i` nodes share the column of layer `l`. */
  function RowsUsed(ids: seq<NodeId>, layer: map<NodeId, nat>, i: nat, l: nat): nat
    requires i <= |ids|
  {
    if i == 0 then 0
    else RowsUsed(ids, layer, i - 1, l) + if ids[i - 1] in layer && layer[ids[i - 1]] == l then 1 else 0
  }

  lemma {:induction false} RowsGrow(ids: seq<NodeId>, layer: map<NodeId, nat>, i: nat, j: nat, l: nat)
    requires i < j <= |ids| && ids[i] in layer && layer[ids[i]] == l
    ensures RowsUsed(ids, layer, i, l) < RowsUsed(ids, layer, j, l)
    decreases j
  {
    if j > i + 1 {
      RowsGrow(ids, layer, i, j - 1, l);
    }
  }

  /** The place of the `i`-th declared node. */
  function Place(ids: seq<NodeId>, layer: map<NodeId, nat>, i: nat): Position
    requires i < |ids| && ids[i] in layer
  {
    Position(X0 + layer[ids[i]] * COL_WIDTH, Y0 + RowsUsed(ids, layer, i, layer[ids[i]]) * ROW_HEIGHT)
  }

  lemma PlacesDiffer(ids: seq<NodeId>, layer: map<NodeId, nat>, i: nat, j: nat)
    requires i < |ids| && j < |ids| && i != j && ids[i] in layer && ids[j] in layer
    ensures Place(ids, layer, i) != Place(ids, layer, j)
  {
    if layer[ids[i]] == layer[ids[j]] {
      if i < j {
        RowsGrow(ids, layer, i, j, layer[ids[i]]);
      } else {
        RowsGrow(ids, layer, j, i, layer[ids[i]]);
      }
    }
  }

  ghost predicate Placed(ids: seq<NodeId>, layer: map<NodeId, nat>, positions: map<NodeId, Position>) {
    && positions.Keys == Elements(ids)
    && forall i :: 0 <= i < |ids| ==> PlacedAt(ids, layer, positions, i)
  }

  ghost predicate PlacedAt(ids: seq<NodeId>, layer: map<NodeId, nat>, positions: map<NodeId, Position>, i: nat)
    requires i < |ids|
  {
    ids[i] in layer && ids[i] in positions && positions[ids[i]] == Place(ids, layer, i)
  }

  /** The last loop: each node takes the next free row of its layer. */
  method AssignRows(ids: seq<NodeId>, layer: map<NodeId, nat>) returns (positions: map<NodeId, Position>)
    requires Distinct(ids) && Elements(ids) <= layer.Keys
    ensures Placed(ids, layer, positions)
  {
    var rowInLayer: map<nat, nat> := map[];
    positions := map[];
    for i := 0 to |ids|
      invariant positions.Keys == Elements(ids[..i])
      invariant forall l: nat :: RowsUsed(ids, layer, i, l) == if l in rowInLayer then rowInLayer[l] else 0
      invariant forall j :: 0 <= j < i ==> PlacedAt(ids, layer, positions, j)
    {
      assert ids[i] in Elements(ids);
      assert ids[..i + 1] == ids[..i] + [ids[i]];
      var l: nat := layer[ids[i]];
      var row := if l in rowInLayer then rowInLayer[l] else 0;
      rowInLayer := rowInLayer[l := row + 1];
      ghost var before := positions;
      positions := positions[ids[i] := Position(X0 + l * COL_WIDTH, Y0 + row * ROW_HEIGHT)];
      assert PlacedAt(ids, layer, positions, i);
      forall j | 0 <= j < i ensures PlacedAt(ids, layer, positions, j) {
        assert PlacedAt(ids, layer, before, j);
        assert ids[j] != ids[i];
      }
    }
    assert ids[..|ids|] == ids;
  }

  /** Nodes the queue never gave a layer go one column right of everything that was ordered. */
  method PlaceLeftovers(ids: seq<NodeId>, start: map<NodeId, nat>, ordered: seq<NodeId>)
    returns (layer: map<NodeId, nat>)
    requires Elements(ordered) <= start.Keys <= Elements(ids)
    ensures layer.Keys == Elements(ids)
    ensures forall m :: m in start ==> layer[m] == start[m]
    ensures forall m, o :: m in layer && m !in start && o in Elements(ordered) ==> layer[o] < layer[m]
  {
    var maxLayer: nat := 0;
    for i := 0 to |ordered|
      invariant forall o :: o in ordered[..i] ==> o in start && start[o] <= maxLayer
    {
      assert ordered[i] in Elements(ordered);
      assert ordered[..i + 1] == ordered[..i] + [ordered[i]];
      if start[ordered[i]] > maxLayer {
        maxLayer := start[ordered[i]];
      }
    }
    assert ordered[..|ordered|] == ordered;
    layer := start;
    for i := 0 to |ids|
      invariant layer.Keys == start.Keys + Elements(ids[..i])
      invariant forall m :: m in start ==> layer[m] == start[m]
      invariant forall m :: m in layer && m !in start ==> layer[m] == maxLayer + 1
    {
      assert Elements(ids[..i + 1]) == Elements(ids[..i]) + {ids[i]} by {
        assert ids[..i + 1] == ids[..i] + [ids[i]];
      }
      if ids[i] !in layer {
        layer := layer[ids[i] := maxLayer + 1];
      }
    }
    assert ids[..|ids|] == ids;
  }

  lemma DistinctPlaces(ids: seq<NodeId>, layer: map<NodeId, nat>, positions: map<NodeId, Position>, a: NodeId,
                       b: NodeId)
    requires Placed(ids, layer, positions) && a in ids && b in ids && a != b
    ensures positions[a] != positions[b]
  {
    var i :| 0 <= i < |ids| && ids[i] == a;
    var j :| 0 <= j < |ids| && ids[j] == b;
    assert PlacedAt(ids, layer, positions, i) && PlacedAt(ids, layer, positions, j);
    PlacesDiffer(ids, layer, i, j);
  }

  /** No two nodes share a position. */
  ghost predicate NoOverlap(positions: map<NodeId, Position>) {
    forall a, b :: a in positions && b in positions && a != b ==> positions[a] != positions[b]
  }

  /** Each node's column is the longest walk that ends at it. */
  ghost predicate LongestPathColumns(g: seq<Edge>, positions: map<NodeId, Position>) {
    forall m :: m in positions ==> exists l: nat :: IsLongest(g, m, l) && positions[m].x == X0 + l * COL_WIDTH
  }

  ghost predicate EdgesGoRight(g: seq<Edge>, positions: map<NodeId, Position>) {
    forall a, b :: HasEdge(g, a, b) ==> a in positions && b in positions && positions[a].x < positions[b].x
  }

  lemma PlacedColumn(ids: seq<NodeId>, layer: map<NodeId, nat>, positions: map<NodeId, Position>, m: NodeId)
    requires Placed(ids, layer, positions) && m in positions
    ensures m in layer && positions[m].x == X0 + layer[m] * COL_WIDTH
  {
    var i :| 0 <= i < |ids| && ids[i] == m;
    assert PlacedAt(ids, layer, positions, i);
  }

  lemma LayersGiveColumns(ids: seq<NodeId>, g: seq<Edge>, layer: map<NodeId, nat>, positions: map<NodeId, Position>)
    requires forall e :: e in g ==> e.src in ids && e.dst in ids
    requires Placed(ids, layer, positions) && Layering(g, Elements(ids), layer)
    ensures LongestPathColumns(g, positions) && EdgesGoRight(g, positions)
  {
    forall m | m in positions
      ensures exists l: nat :: IsLongest(g, m, l) && positions[m].x == X0 + l * COL_WIDTH
    {
      PlacedColumn(ids, layer, positions, m);
      assert IsLongest(g, m, layer[m]);
    }
    forall a, b | HasEdge(g, a, b) ensures a in positions && b in positions && positions[a].x < positions[b].x {
      var e :| e in g && e.src == a && e.dst == b;
      assert a in Elements(ids) && b in Elements(ids);
      PlacedColumn(ids, layer, positions, a);
      PlacedColumn(ids, layer, positions, b);
    }
  }

  /** The nodes among the first `k` declared that stand in column `x`. */
  ghost function InColumn(ids: seq<NodeId>, positions: map<NodeId, Position>, k: nat, x: int): set<int>
    requires k <= |ids|
  {
    set j | 0 <= j < k && ids[j] in positions && positions[ids[j]].x == x
  }

  ghost predicate InRowOrder(ids: seq<NodeId>, positions: map<NodeId, Position>, i: nat)
    requires i < |ids|
  {
    ids[i] in positions && positions[ids[i]].y == Y0 + |InColumn(ids, positions, i, positions[ids[i]].x)| * ROW_HEIGHT
  }

  /** Within a column, rows are filled in declaration order without gaps. */
  ghost predicate RowsInOrder(ids: seq<NodeId>, positions: map<NodeId, Position>) {
    forall i :: 0 <= i < |ids| ==> InRowOrder(ids, positions, i)
  }

  lemma InColumnStep(ids: seq<NodeId>, positions: map<NodeId, Position>, k: nat, x: int)
    requires k < |ids| && ids[k] in positions
    ensures |InColumn(ids, positions, k + 1, x)|
         == |InColumn(ids, positions, k, x)| + if positions[ids[k]].x == x then 1 else 0
  {
    var shorter := InColumn(ids, positions, k, x);
    if positions[ids[k]].x == x {
      assert InColumn(ids, positions, k + 1, x) == shorter + {k};
      assert k !in shorter;
    } else {
      assert InColumn(ids, positions, k + 1, x) == shorter;
    }
  }

  lemma {:induction false} RowsUsedCounts(ids: seq<NodeId>, layer: map<NodeId, nat>,
                                          positions: map<NodeId, Position>, k: nat, l: nat)
    requires Placed(ids, layer, positions) && k <= |ids|
    ensures |InColumn(ids, positions, k, X0 + l * COL_WIDTH)| == RowsUsed(ids, layer, k, l)
  {
    if k == 0 {
      assert InColumn(ids, positions, k, X0 + l * COL_WIDTH) == {};
    } else {
      RowsUsedCounts(ids, layer, positions, k - 1, l);
      assert PlacedAt(ids, layer, positions, k - 1);
      PlacedColumn(ids, layer, positions, ids[k - 1]);
      InColumnStep(ids, positions, k - 1, X0 + l * COL_WIDTH);
    }
  }

  lemma PlacedInOrder(ids: seq<NodeId>, layer: map<NodeId, nat>, positions: map<NodeId, Position>, i: nat)
    requires Placed(ids, layer, positions) && i < |ids|
    ensures InRowOrder(ids, positions, i)
  {
    assert PlacedAt(ids, layer, positions, i);
    RowsUsedCounts(ids, layer, positions, i, layer[ids[i]]);
  }

  /** `layeredLayout`: no two nodes overlap, cyclic or not. Without a cycle a node's column is its
      longest incoming walk, so every edge points strictly right. */
  method LayeredLayout(ids: seq<NodeId>, edges: seq<Edge>) returns (positions: map<NodeId, Position>)
    requires Distinct(ids)
    ensures positions.Keys == Elements(ids) && NoOverlap(positions) && RowsInOrder(ids, positions)
    ensures !Cyclic(Known(ids, edges)) ==>
              LongestPathColumns(Known(ids, edges), positions) && EdgesGoRight(Known(ids, edges), positions)
  {
    var g := Known(ids, edges);
    var reached, ordered := AssignLayers(ids, g);
    var layer := PlaceLeftovers(ids, reached, ordered);
    positions := AssignRows(ids, layer);
    forall i | 0 <= i < |ids| ensures InRowOrder(ids, positions, i) {
      PlacedInOrder(ids, layer, positions, i);
    }
    forall a, b | a in positions && b in positions && a != b ensures positions[a] != positions[b] {
      DistinctPlaces(ids, layer, positions, a, b);
    }
    if !Cyclic(g) {
      assert layer == reached;
      LayersGiveColumns(ids, g, layer, positions);
    }
  }
}
