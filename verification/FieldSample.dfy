/** An iterator that reads a dotted field of the records before it: whenever `int` rejects a segment after
    the first, some record makes an accepted pipeline of two nodes raise in every run. */
module FieldSample {
  import opened Wrappers
  import opened Graphs
  import opened Topo
  import opened Json
  import opened Paths
  import opened References
  import opened Pipelines
  import opened Iterators
  import opened NodeExecution
  import opened EngineModel
  import opened ContinueOnError
  import opened Modes
  import opened Runs
  import opened Samples

  const PAIR_EDGES := [Edge("a", "out", "it", "in")]
  const PAIR := ["a", "it"]

  /** The config of an iterator over a field of the upstream records. */
  function FromField(field: string): Value {
    Dict([Entry("mode", Str("from_upstream")), Entry("field", Str(field))])
  }

  function Pair(field: string): Pipeline {
    Pipeline([NodeSpec("a", "plain", NOTHING_SET), NodeSpec("it", "iterator", FromField(field))], PAIR_EDGES)
  }

  /** Every node gives the one record. */
  function GivesRecord(record: Value): Runtime {
    Runtime(FORK_CLASSES, v => "", outs => [], NO_CHECKS, (n, c, ins, iter) => Ok(map["out" := [record]]))
  }

  function PairEnv(field: string, record: Value, failFast: bool): Env {
    Env(GivesRecord(record), Pair(field), PAIR, failFast, 8)
  }

  // ---------------------------------------------------------------- the graph

  lemma PairSpecs(field: string)
    ensures Ids(Pair(field).nodes) == PAIR && "a" in PAIR && "it" in PAIR && Distinct(PAIR)
    ensures DeclIndex(PAIR, "a") == 0 && DeclIndex(PAIR, "it") == 1
    ensures SpecOf(Pair(field), "a") == NodeSpec("a", "plain", NOTHING_SET)
    ensures SpecOf(Pair(field), "it") == NodeSpec("it", "iterator", FromField(field))
  {
    assert PAIR[0] == "a" && PAIR[1] == "it";
    assert PAIR[DeclIndex(PAIR, "a")] == "a" && PAIR[DeclIndex(PAIR, "it")] == "it";
  }

  lemma PairHasEdge(x: NodeId, y: NodeId)
    ensures HasEdge(PAIR_EDGES, x, y) <==> x == "a" && y == "it"
  {
    assert PAIR_EDGES[0] in PAIR_EDGES;
  }

  lemma PairDegree(live: set<NodeId>, n: NodeId)
    ensures InDegree(PAIR_EDGES, live, n) == 0 <==> n != "it" || "a" !in live
  {
    InDegreePositive(PAIR_EDGES, live, n);
    forall x ensures HasEdge(PAIR_EDGES, x, n) <==> x == "a" && n == "it" {
      PairHasEdge(x, n);
    }
  }

  lemma PairOrder(field: string)
    ensures LeastTopoOrder(PAIR, PAIR_EDGES, PAIR) && !Cyclic(Known(PAIR, PAIR_EDGES))
  {
    PairSpecs(field);
    forall live: set<NodeId>, n: NodeId ensures InDegree(PAIR_EDGES, live, n) == 0 <==> n != "it" || "a" !in live {
      PairDegree(live, n);
    }
    assert PAIR[..0] == [] && PAIR[..1] == ["a"];
    assert IsNext(PAIR, PAIR_EDGES, [], "a");
    assert IsNext(PAIR, PAIR_EDGES, ["a"], "it");
    GreedyIsLeastTopoOrder(PAIR, PAIR_EDGES, PAIR);
  }

  lemma PairInputs()
    ensures InEdges(PAIR_EDGES, "a") == [] && InEdges(PAIR_EDGES, "it") == PAIR_EDGES
  {
    assert PAIR_EDGES[..0] == [] && PAIR_EDGES[1..] == [];
    assert PAIR_EDGES[0].dst == "it";
  }

  // ---------------------------------------------------------------- it is accepted

  lemma FromFieldIsLiteral(field: string)
    requires IsLiteral(Str(field))
    ensures IsLiteral(FromField(field))
  {
    PlainWord("from_upstream");
    LiteralEntries(FromField(field).entries);
  }

  lemma PairEdgesFit(field: string)
    ensures forall e :: e in PAIR_EDGES ==> EdgeFits(FORK_CLASSES, Pair(field), e)
    ensures PortsUnshared(FORK_CLASSES, Pair(field))
  {
    PairSpecs(field);
  }

  lemma PairIterators(field: string)
    ensures forall n :: n in IteratorIds(FORK_CLASSES, Pair(field).nodes) ==> n == "it"
  {
    var nodes := Pair(field).nodes;
    forall n | n in IteratorIds(FORK_CLASSES, nodes) ensures n == "it" {
      IteratorIdsAre(FORK_CLASSES, nodes, n);
      var j :| 0 <= j < |nodes| && nodes[j].id == n && nodes[j].typeName in FORK_CLASSES
          && FORK_CLASSES[nodes[j].typeName].fanOut;
    }
  }

  lemma PairRefs(field: string, iterators: seq<NodeId>)
    requires IsLiteral(Str(field))
    ensures forall node :: node in Pair(field).nodes ==> RefsAllowed(iterators, Pair(field), node)
  {
    FromFieldIsLiteral(field);
    forall node | node in Pair(field).nodes ensures FindRefs(node.config) == [] {
      assert node.config == NOTHING_SET || node.config == FromField(field);
    }
  }

  lemma PairIsAccepted(field: string)
    requires IsLiteral(Str(field))
    ensures Accepted(FORK_CLASSES, Pair(field)) && IdsNonEmpty(Pair(field))
  {
    var p := Pair(field);
    PairSpecs(field);
    PairOrder(field);
    PairEdgesFit(field);
    PairIterators(field);
    OneIterator(IteratorIds(FORK_CLASSES, p.nodes), p.edges, "it");
    PairRefs(field, IteratorIds(FORK_CLASSES, p.nodes));
  }

  lemma PairIsValid(env: Env, field: string)
    requires env.p == Pair(field) && env.order == PAIR && env.rt.registry == FORK_CLASSES && env.maxConcurrency >= 1
    requires IsLiteral(Str(field))
    ensures ValidEnv(env) && Runnable(NO_CHECKS, FORK_CLASSES, Pair(field))
    ensures LeastTopoOrder(Ids(env.p.nodes), env.p.edges, env.order)
  {
    PairIsAccepted(field);
    PairSpecs(field);
    PairOrder(field);
    NothingToCheck(FORK_CLASSES, Pair(field));
  }

  // ---------------------------------------------------------------- it raises

  lemma FromFieldReads(field: string)
    ensures ReadSource(FromField(field)) == FromUpstream(Some(field))
  {
    FromFieldSettings(field);
    assert |"from_upstream"| == 13 && |"array"| == 5 && |"range"| == 5;
  }

  /** On a record along which the field raises, the iterator has no plan. */
  lemma FromFieldRaises(field: string, record: Value, inputs: Inputs)
    requires Get(record, SplitPath(field)) == Err(BadInteger) && "in" in inputs && inputs["in"] == [[record]]
    ensures PlanFrom(FromField(field), inputs) == Err(Unexpected)
  {
    FromFieldReads(field);
    OneRecordRaises(record, SplitPath(field));
  }

  lemma PairGathers(view: View, record: Value)
    requires "a" in view && view["a"] == map["out" := [record]]
    ensures Gather(InEdges(PAIR_EDGES, "it"), view) == Ok(map["in" := [[record]]])
  {
    PairInputs();
    var e := PAIR_EDGES[0];
    assert PAIR_EDGES[..0] == [] && Gather([], view) == Ok(map[]);
    assert Available(view, e);
    assert [] + [view["a"]["out"]] == [[record]];
  }

  lemma PairPlanRaises(env: Env, field: string, record: Value, view: View)
    requires env.p == Pair(field) && env.rt.checks == NO_CHECKS && IsLiteral(Str(field)) && "it" in Nodes(env)
    requires Get(record, SplitPath(field)) == Err(BadInteger)
    requires "a" in view && view["a"] == map["out" := [record]]
    ensures PlanOf(env.rt, env.p, "it", view) == Err(NodeError("it", Unhandled, None))
  {
    PairSpecs(field);
    PairGathers(view, record);
    FromFieldIsLiteral(field);
    LiteralResolves(FromField(field), ContextOf(env.rt, view, None), env.rt.render);
    FromFieldRaises(field, record, map["in" := [[record]]]);
  }

  lemma PairRootGives(env: Env, field: string, record: Value)
    requires env.p == Pair(field) && env.rt == GivesRecord(record)
    ensures AlwaysGives(env, "a", Ok(map["out" := [record]]))
  {
    PairSpecs(field);
    PairInputs();
    forall view ensures ExecuteNode(env.rt, env.p, "a", view, None) == Ok(map["out" := [record]]) {
      RootExecutes(env, "a", NOTHING_SET, view, Ok(map["out" := [record]]));
    }
  }

  lemma PlanErrorEndsTurn(env: Env, k: nat, s: Snapshot, it: NodeId, e: NodeError)
    requires ValidEnv(env) && k < |env.order| && env.order[k] == it && s == SeqRun(env, k)
    requires it in Nodes(env) && FansOut(env, it) && it !in s.results
    requires PlanOf(env.rt, env.p, it, s.outputs) == Err(e)
    ensures SeqRun(env, k + 1).errors == s.errors + [e]
  {
    IteratorTurn(env, k, s, it);
  }

  /** The continue-on-error run meets the exception, and nothing else. */
  lemma LenientPairEscapes(env: Env, field: string, record: Value)
    requires env == PairEnv(field, record, false) && IsLiteral(Str(field))
    requires Get(record, SplitPath(field)) == Err(BadInteger)
    ensures ValidEnv(env) && |env.order| == 2
    ensures var errors := SeqRun(env, 2).errors; |errors| == 1 && Escapes(errors[0])
  {
    PairIsValid(env, field);
    PairSpecs(field);
    PairRootGives(env, field, record);
    var s := FirstSucceeds(env, "a", map["out" := [record]]);
    PairPlanRaises(env, field, record, s.outputs);
    PlanErrorEndsTurn(env, 1, s, "it", NodeError("it", Unhandled, None));
  }

  /** An accepted pipeline from whose every run, in both modes, the exception of a field escapes. */
  lemma RaisingFieldEscapes(env: Env, field: string, record: Value, failFast: bool, trace: seq<Moment>)
    requires env == PairEnv(field, record, failFast) && IsLiteral(Str(field))
    requires Get(record, SplitPath(field)) == Err(BadInteger)
    ensures ValidEnv(env) && Runnable(env.rt.checks, env.rt.registry, env.p)
    ensures LeastTopoOrder(Ids(env.p.nodes), env.p.edges, env.order)
    ensures IsEngineRun(env, trace) && |trace| == |env.order| + 1 ==> SomeEscapes(trace[|env.order|].state.errors)
  {
    PairIsValid(env, field);
    LenientPairEscapes(Lenient(env), field, record);
    if IsEngineRun(env, trace) && |trace| == |env.order| + 1 {
      RunEscapes(env, trace);
    }
  }

  /** Every run of the environment lets an exception escape. */
  ghost predicate AlwaysEscapes(env: Env) {
    && ValidEnv(env) && Runnable(env.rt.checks, env.rt.registry, env.p)
    && forall trace: seq<Moment> :: IsEngineRun(env, trace) && |trace| == |env.order| + 1 ==>
         SomeEscapes(trace[|env.order|].state.errors)
  }

  /** The condition on fields is not too strong: for every literal field with a rejected segment after the
      first there is a dict that the first node may give, such that every run raises. */
  lemma RejectedFieldCanRaise(field: string, failFast: bool) returns (record: Value)
    requires IsLiteral(Str(field)) && SplitPath(field) != [] && !NoneRejected(SplitPath(field)[1..])
    ensures record.Dict? && AlwaysEscapes(PairEnv(field, record, failFast))
    ensures !FieldWellIndexed(FromField(field))
  {
    record := DictRaises(SplitPath(field));
    var env := PairEnv(field, record, failFast);
    forall trace: seq<Moment> ensures ValidEnv(env) && Runnable(env.rt.checks, env.rt.registry, env.p)
    ensures IsEngineRun(env, trace) && |trace| == |env.order| + 1 ==> SomeEscapes(trace[|env.order|].state.errors) {
      RaisingFieldEscapes(env, field, record, failFast, trace);
    }
    RejectedFieldIsNoted(field);
  }

  lemma FromFieldSettings(field: string)
    ensures Setting(FromField(field), "mode") == Str("from_upstream")
    ensures Setting(FromField(field), "field") == Str(field)
  {
    var (m, f) := (Str("from_upstream"), Str(field));
    assert |"mode"| == 4 && |"field"| == 5;
    LookupTwo("mode", m, "field", f, "mode");
    LookupTwo("mode", m, "field", f, "field");
  }

  lemma LiteralText(text: string)
    requires IsLiteral(Str(text))
    ensures PlainText(Str(text)) && PlainTextOf(Str(text)) == text
  {
  }

  lemma RestRejected(path: seq<string>)
    requires path != [] && !NoneRejected(path[1..])
    ensures !NoneRejected(path)
  {
    var i :| 0 <= i < |path[1..]| && Rejected(path[1..][i]);
    assert Rejected(path[i + 1]);
  }

  lemma RejectedFieldIsNoted(field: string)
    requires IsLiteral(Str(field)) && SplitPath(field) != [] && !NoneRejected(SplitPath(field)[1..])
    ensures !FieldWellIndexed(FromField(field))
  {
    FromFieldSettings(field);
    PlainWord("from_upstream");
    LiteralText("from_upstream");
    LiteralText(field);
    assert |"from_upstream"| == 13 && |"array"| == 5 && |"range"| == 5;
    RestRejected(SplitPath(field));
  }

  /** Such a field. */
  lemma DoubleDashField()
    ensures IsLiteral(Str("a.--5")) && SplitPath("a.--5") != [] && !NoneRejected(SplitPath("a.--5")[1..])
  {
    PlainWord("a.--5");
    SplitDoubleDash();
    DoubleDashIsRejected();
    assert SplitPath("a.--5")[1..] == ["--5"];
    assert Rejected(["--5"][0]);
  }
}
