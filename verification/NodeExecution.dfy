/** Running one node: resolve its config, validate it, collect its inputs, call it. What a node
    class does with its config and inputs is left uninterpreted. */
module NodeExecution {
  import opened Wrappers
  import opened Graphs
  import opened Json
  import opened References
  import opened Pipelines
  import opened Iterators

  type Outputs = map<string, Records>
  type Inputs = map<string, seq<Records>>
  type View = map<NodeId, Outputs>

  /** Why a node failed, or the validation issue of a rejected pipeline. What `Node.run` raises is
      converted; what an iterator raises while it produces its values is handled only if it is a node
      error. */
  datatype ErrorKind =
    | Invalid(issue: Issue)
    | Unresolved(reason: RefError)
    | BadConfig(message: string)
    | Unavailable(src: NodeId, port: string)
    | Raised(message: string)
    | NoValues
    | Unhandled

  /** A structured node error; errors raised inside a fan-out carry the iteration's index. */
  datatype NodeError = NodeError(node: NodeId, kind: ErrorKind, iteration: Option<nat>)

  datatype FanIn = Concat | Keyed

  /** What an iterator asks for: its values, how results are combined, and its own concurrency cap. */
  datatype Plan = Plan(values: seq<Value>, fanIn: FanIn, cap: Option<nat>)

  /** The uninterpreted parts: Python's `str`, the first stream of an output without an `out` port,
      config models, and `Node.run`. */
  datatype Runtime = Runtime(
    registry: Registry,
    render: Value -> string,
    firstStream: Outputs -> Records,
    checks: ClassChecks,
    run: (NodeId, Value, Inputs, Option<Iteration>) -> Result<Outputs, string>)

  /** `_primary`. */
  function Primary(rt: Runtime, outputs: Outputs): Records {
    if "out" in outputs then outputs["out"]
    else if outputs == map[] then []
    else rt.firstStream(outputs)
  }

  function ContextOf(rt: Runtime, view: View, iter: Option<Iteration>): Context {
    Context(map n | n in view :: Primary(rt, view[n]), iter)
  }

  predicate Available(view: View, e: Edge) {
    e.src in view && e.srcPort in view[e.src]
  }

  /** The streams of each port, one per edge in declaration order; the first edge without a stream
      is the error. */
  function Gather(into: seq<Edge>, view: View): Result<Inputs, ErrorKind> {
    if into == [] then Ok(map[])
    else
      match Gather(into[..|into| - 1], view)
      case Err(k) => Err(k)
      case Ok(inputs) =>
        var e := into[|into| - 1];
        if !Available(view, e) then Err(Unavailable(e.src, e.srcPort))
        else
          var before := if e.dstPort in inputs then inputs[e.dstPort] else [];
          Ok(inputs[e.dstPort := before + [view[e.src][e.srcPort]]])
  }

  /** `_prepare_node`: the validated config and the inputs, or why the node cannot run. */
  function Prepare(rt: Runtime, p: Pipeline, n: NodeId, view: View, iter: Option<Iteration>): Result<(Value,
                   Inputs), ErrorKind>
    requires n in Ids(p.nodes)
  {
    var spec := SpecOf(p, n);
    match ResolveConfig(spec.config, ContextOf(rt, view, iter), rt.render)
    case Err(e) => Err(Unresolved(e))
    case Ok(resolved) =>
      match rt.checks.validate(spec.typeName, resolved)
      case Err(m) => Err(BadConfig(m))
      case Ok(config) =>
        match Gather(InEdges(p.edges, n), view)
        case Err(k) => Err(k)
        case Ok(inputs) => Ok((config, inputs))
  }

  /** `_execute_node`. */
  function ExecuteNode(rt: Runtime, p: Pipeline, n: NodeId, view: View,
                       iter: Option<Iteration>): Result<Outputs, NodeError>
    requires n in Ids(p.nodes)
  {
    match Prepare(rt, p, n, view, iter)
    case Err(k) => Err(NodeError(n, k, None))
    case Ok(ready) =>
      match rt.run(n, ready.0, ready.1, iter)
      case Err(m) => Err(NodeError(n, Raised(m), None))
      case Ok(outputs) => Ok(outputs)
  }

  /** What a validated iterator config and its inputs ask for. */
  function PlanFrom(config: Value, inputs: Inputs): Result<Plan, PlanError> {
    match GetValues(ReadSource(config), inputs)
    case Ok(values) => Ok(Plan(values, if ReadKeyed(config) then Keyed else Concat, ReadCap(config)))
    case Err(e) => Err(e)
  }

  /** `_prepare_node` and `get_values` of an iterator. */
  function PlanOf(rt: Runtime, p: Pipeline, n: NodeId, view: View): Result<Plan, NodeError>
    requires n in Ids(p.nodes)
  {
    match Prepare(rt, p, n, view, None)
    case Err(k) => Err(NodeError(n, k, None))
    case Ok(ready) =>
      match PlanFrom(ready.0, ready.1)
      case Err(Reported) => Err(NodeError(n, NoValues, None))
      case Err(Unexpected) => Err(NodeError(n, Unhandled, None))
      case Ok(plan) => Ok(plan)
  }

  /** An iterator's error is its own. */
  lemma PlanErrorNode(rt: Runtime, p: Pipeline, n: NodeId, view: View)
    requires n in Ids(p.nodes) && PlanOf(rt, p, n, view).Err?
    ensures PlanOf(rt, p, n, view).error.node == n
  {
  }

  /** The input loop of `_prepare_node`. */
  method GatherInputs(into: seq<Edge>, view: View) returns (r: Result<Inputs, ErrorKind>)
    ensures r == Gather(into, view)
  {
    var inputs: Inputs := map[];
    for i := 0 to |into|
      invariant Gather(into[..i], view) == Ok(inputs)
    {
      var e := into[i];
      assert into[..i + 1][..i] == into[..i];
      if !Available(view, e) {
        GatherStops(into, view, i);
        return Err(Unavailable(e.src, e.srcPort));
      }
      var before := if e.dstPort in inputs then inputs[e.dstPort] else [];
      inputs := inputs[e.dstPort := before + [view[e.src][e.srcPort]]];
    }
    assert into[..|into|] == into;
    return Ok(inputs);
  }

  lemma {:induction false} GatherStops(into: seq<Edge>, view: View, i: nat)
    requires i < |into| && Gather(into[..i], view).Ok? && !Available(view, into[i])
    ensures Gather(into, view) == Err(Unavailable(into[i].src, into[i].srcPort))
  {
    if i == |into| - 1 {
      assert into[..|into| - 1] == into[..i];
    } else {
      var front := into[..|into| - 1];
      assert front[..i] == into[..i];
      GatherStops(front, view, i);
    }
  }

  /** Inputs are gathered exactly when every edge has its stream. */
  lemma {:induction false} GatherSucceeds(into: seq<Edge>, view: View)
    ensures Gather(into, view).Ok? <==> forall e :: e in into ==> Available(view, e)
    ensures Gather(into, view).Err? ==> Gather(into, view).error.Unavailable?
  {
    if into != [] {
      var front, e := into[..|into| - 1], into[|into| - 1];
      GatherSucceeds(front, view);
      assert into == front + [e];
    }
  }

  // ---------------------------------------------------------------- what a node can see

  /** The nodes a node reads: the sources of its edges and the targets of its references. */
  ghost function Reads(p: Pipeline, n: NodeId): set<NodeId>
    requires n in Ids(p.nodes)
  {
    (set e | e in p.edges && e.dst == n :: e.src)
    + (set ref | ref in FindRefs(SpecOf(p, n).config) && TargetOf(ref).Some? :: TargetOf(ref).value)
  }

  ghost predicate Agree(v: View, w: View, nodes: set<NodeId>) {
    forall x :: x in nodes ==> (x in v <==> x in w) && (x in v ==> v[x] == w[x])
  }

  lemma {:induction false} GatherFrame(into: seq<Edge>, v: View, w: View, nodes: set<NodeId>)
    requires Agree(v, w, nodes)
    requires forall e :: e in into ==> e.src in nodes
    ensures Gather(into, v) == Gather(into, w)
  {
    if into != [] {
      GatherFrame(into[..|into| - 1], v, w, nodes);
      assert into[|into| - 1] in into;
    }
  }

  lemma ContextFrame(rt: Runtime, p: Pipeline, n: NodeId, v: View, w: View, iter: Option<Iteration>)
    requires n in Ids(p.nodes) && Agree(v, w, Reads(p, n))
    ensures SameForAll(FindRefs(SpecOf(p, n).config), ContextOf(rt, v, iter), ContextOf(rt, w, iter))
  {
    var refs := FindRefs(SpecOf(p, n).config);
    forall i | 0 <= i < |refs| ensures SameFor(refs[i], ContextOf(rt, v, iter), ContextOf(rt, w, iter)) {
      if TargetOf(refs[i]).Some? {
        assert refs[i] in refs;
        assert TargetOf(refs[i]).value in Reads(p, n);
      }
    }
  }

  /** Running a node depends only on the outputs of the nodes it reads. */
  lemma PrepareFrame(rt: Runtime, p: Pipeline, n: NodeId, v: View, w: View, iter: Option<Iteration>)
    requires n in Ids(p.nodes) && Agree(v, w, Reads(p, n))
    ensures Prepare(rt, p, n, v, iter) == Prepare(rt, p, n, w, iter)
  {
    ContextFrame(rt, p, n, v, w, iter);
    ResolveReadsOnlyFoundReferences(SpecOf(p, n).config, ContextOf(rt, v, iter), ContextOf(rt, w, iter), rt.render);
    GatherFrame(InEdges(p.edges, n), v, w, Reads(p, n));
  }

  lemma ExecuteFrame(rt: Runtime, p: Pipeline, n: NodeId, v: View, w: View, iter: Option<Iteration>)
    requires n in Ids(p.nodes) && Agree(v, w, Reads(p, n))
    ensures ExecuteNode(rt, p, n, v, iter) == ExecuteNode(rt, p, n, w, iter)
  {
    PrepareFrame(rt, p, n, v, w, iter);
  }

  lemma PlanFrame(rt: Runtime, p: Pipeline, n: NodeId, v: View, w: View)
    requires n in Ids(p.nodes) && Agree(v, w, Reads(p, n))
    ensures PlanOf(rt, p, n, v) == PlanOf(rt, p, n, w)
  {
    PrepareFrame(rt, p, n, v, w, None);
  }

  /** Ids match a pattern that excludes the empty string. */
  predicate IdsNonEmpty(p: Pipeline) {
    forall node :: node in p.nodes ==> node.id != []
  }

  lemma SourceIsAncestor(p: Pipeline, e: Edge)
    requires e in p.edges
    ensures e.src in Ancestors(p.edges, e.dst)
  {
    assert HasEdge(p.edges, e.src, e.dst);
    EdgeReaches(p.edges, e.src, e.dst);
    ReachesEndpoints(p.edges, e.src, e.dst);
  }

  lemma TargetIsAncestor(iterators: seq<NodeId>, p: Pipeline, n: NodeId, ref: Ref)
    requires RefAllowed(iterators, p, n, ref) && IdsNonEmpty(p) && TargetOf(ref).Some?
    ensures TargetOf(ref).value in Ancestors(p.edges, n)
  {
    var i :| 0 <= i < |p.nodes| && p.nodes[i].id == StaticTarget(ref.path);
    assert p.nodes[i] in p.nodes;
    AcceptedTargetIsResolved(ref);
  }

  /** In an accepted pipeline a node only reads its ancestors. */
  lemma ReadsAreAncestors(reg: Registry, p: Pipeline, n: NodeId)
    requires Accepted(reg, p) && IdsNonEmpty(p) && n in Ids(p.nodes)
    ensures Reads(p, n) <= Ancestors(p.edges, n)
  {
    assert RefsAllowed(IteratorIds(reg, p.nodes), p, SpecOf(p, n));
    forall x | x in Reads(p, n) ensures x in Ancestors(p.edges, n) {
      if e :| e in p.edges && e.dst == n && e.src == x {
        SourceIsAncestor(p, e);
      } else {
        var ref :| ref in FindRefs(SpecOf(p, n).config) && TargetOf(ref).Some? && TargetOf(ref).value == x;
        TargetIsAncestor(IteratorIds(reg, p.nodes), p, n, ref);
      }
    }
  }
}
