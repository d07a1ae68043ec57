/** Three small pipelines of one shape that show what general laws do not promise: an iterator `it`
    and a plain node `a` both feed `m`, which lies in the iterator's scope. */
module Samples {
  import opened Wrappers
  import opened Chains
  import opened Graphs
  import opened Topo
  import opened Json
  import opened References
  import opened Pipelines
  import opened Iterators
  import opened NodeExecution
  import opened Fanout
  import opened EngineModel
  import opened FailFast
  import opened ContinueOnError
  import opened Modes
  import opened Runs
  import opened ScopeInputs

  /** The config of a node with nothing to set. */
  const NOTHING_SET := Dict([])

  /** The config of an iterator over given integers. */
  function Over(values: seq<Value>): Value {
    Dict([Entry("mode", Str("array")), Entry("array", List(values))])
  }

  /** `a` is declared first or last; `m` has the given config, `it` the given values. */
  function ForkNodes(aFirst: bool, config: Value, values: seq<Value>): seq<NodeSpec> {
    if aFirst then
      [NodeSpec("a", "plain", NOTHING_SET), NodeSpec("it", "iterator", Over(values)), NodeSpec("m", "plain", config)]
    else
      [NodeSpec("it", "iterator", Over(values)), NodeSpec("m", "plain", config), NodeSpec("a", "plain", NOTHING_SET)]
  }

  const FORK_EDGES := [Edge("it", "out", "m", "in"), Edge("a", "out", "m", "in")]

  function Fork(aFirst: bool, config: Value, values: seq<Value>): Pipeline {
    Pipeline(ForkNodes(aFirst, config, values), FORK_EDGES)
  }

  function ForkOrder(aFirst: bool): seq<NodeId> {
    if aFirst then ["a", "it", "m"] else ["it", "a", "m"]
  }

  const FORK_CLASSES: Registry :=
    map["iterator" := NodeClass({"in"}, {"out"}, false, true), "plain" := NodeClass({"in"}, {"out"}, true, false)]

  const NO_CHECKS := ClassChecks((t, v) => Ok(v), (t, v) => [], (t, v, counts) => [])

  /** Nodes succeed without records, except that `a` may fail. */
  function ForkRuntime(aFails: bool): Runtime {
    Runtime(FORK_CLASSES, v => "", outs => [], NO_CHECKS,
            (n, c, ins, iter) => if aFails && n == "a" then Err("refused") else Ok(map["out" := []]))
  }

  function ForkEnv(aFirst: bool, config: Value, aFails: bool, values: seq<Value>, failFast: bool): Env {
    Env(ForkRuntime(aFails), Fork(aFirst, config, values), ForkOrder(aFirst), failFast, 8)
  }

  // ---------------------------------------------------------------- literal configs

  /** A config that resolves to itself. */
  predicate IsLiteral(config: Value) {
    FindRefs(config) == [] && Unescape(config) == config
  }

  predicate Integers(values: seq<Value>) {
    forall i :: 0 <= i < |values| ==> values[i].Int?
  }

  lemma {:induction false} IntegersAreLiteral(values: seq<Value>)
    requires Integers(values)
    ensures RefsInItems(values) == [] && UnescapeItems(values) == values
  {
    if values != [] {
      IntegersAreLiteral(values[1..]);
    }
  }

  lemma OtherStart(word: string, prefix: string)
    requires prefix != [] && (word == [] || word[0] != prefix[0])
    ensures !Strings.StartsWith(word, prefix)
  {
    if |prefix| <= |word| {
      assert word[..|prefix|][0] == word[0];
    }
  }

  lemma PlainWord(word: string)
    requires word != [] && forall i :: 0 <= i < |word| ==> word[i] != '$'
    ensures IsLiteral(Str(word))
  {
    NoDollarNoRefs(word);
    OtherStart(word, "$$");
  }

  lemma {:induction false} NoDollarNoHoles(word: string)
    requires forall i :: 0 <= i < |word| ==> word[i] != '$'
    ensures Holes(Pieces(word)) == []
  {
    if word != [] {
      OtherStart(word, "${upstream.");
      OtherStart(word, "${iter.");
      NoDollarNoHoles(word[1..]);
      assert Pieces(word) == [Literal(word[0])] + Pieces(word[1..]);
    }
  }

  lemma NoDollarNoRefs(word: string)
    requires word != [] && forall i :: 0 <= i < |word| ==> word[i] != '$'
    ensures RefsInText(word) == []
  {
    NoDollarNoHoles(word);
    var body := if word[|word| - 1] == '\n' then word[..|word| - 1] else word;
    OtherStart(body, "$upstream.");
    OtherStart(body, "$iter.");
  }

  lemma {:induction false} LiteralEntries(entries: seq<Entry>)
    requires forall i :: 0 <= i < |entries| ==> IsLiteral(entries[i].value)
    ensures RefsInEntries(entries) == [] && UnescapeEntries(entries) == entries
  {
    if entries != [] {
      LiteralEntries(entries[1..]);
    }
  }

  lemma OverIsLiteral(values: seq<Value>)
    requires Integers(values)
    ensures IsLiteral(Over(values))
  {
    IntegersAreLiteral(values);
    PlainWord("array");
    assert IsLiteral(List(values));
    LiteralEntries(Over(values).entries);
  }

  lemma LookupTwo(k: string, v: Value, l: string, w: Value, key: string)
    requires k != l
    ensures Lookup([Entry(k, v), Entry(l, w)], key) == if key == k then Some(v) else if key == l then Some(w) else None
  {
    var entries, rest := [Entry(k, v), Entry(l, w)], [Entry(l, w)];
    assert entries[1..] == rest && rest[1..] == [];
    assert Lookup(rest, key) == if key == l then Some(w) else None;
  }

  lemma OverSettings(values: seq<Value>)
    ensures Setting(Over(values), "mode") == Str("array") && Setting(Over(values), "array") == List(values)
    ensures Setting(Over(values), "fan_in") == Null && Setting(Over(values), "max_concurrency") == Null
  {
    var items := List(values);
    assert |"mode"| == 4 && |"array"| == 5 && |"fan_in"| == 6 && |"max_concurrency"| == 15;
    LookupTwo("mode", Str("array"), "array", items, "mode");
    LookupTwo("mode", Str("array"), "array", items, "array");
    LookupTwo("mode", Str("array"), "array", items, "fan_in");
    LookupTwo("mode", Str("array"), "array", items, "max_concurrency");
  }

  /** Such an iterator asks for its values, concatenated, with the run's own cap. */
  lemma OverPlans(values: seq<Value>, inputs: Inputs)
    ensures PlanFrom(Over(values), inputs) == Ok(Plan(values, Concat, None))
  {
    OverSettings(values);
  }

  // ---------------------------------------------------------------- the graph

  lemma ForkIds(aFirst: bool, config: Value, values: seq<Value>)
    ensures Ids(ForkNodes(aFirst, config, values)) == if aFirst then ["a", "it", "m"] else ["it", "m", "a"]
    ensures Elements(Ids(ForkNodes(aFirst, config, values))) == {"it", "m", "a"}
    ensures Distinct(Ids(ForkNodes(aFirst, config, values)))
  {
  }

  lemma ForkHasEdge(x: NodeId, y: NodeId)
    ensures HasEdge(FORK_EDGES, x, y) <==> y == "m" && (x == "it" || x == "a")
  {
    assert FORK_EDGES[0] in FORK_EDGES && FORK_EDGES[1] in FORK_EDGES;
  }

  lemma ForkDegree(live: set<NodeId>, n: NodeId)
    ensures InDegree(FORK_EDGES, live, n) == 0 <==> n != "m" || ("it" !in live && "a" !in live)
  {
    InDegreePositive(FORK_EDGES, live, n);
    forall x ensures HasEdge(FORK_EDGES, x, n) <==> n == "m" && (x == "it" || x == "a") {
      ForkHasEdge(x, n);
    }
    assert HasEdge(FORK_EDGES, "it", "m") && HasEdge(FORK_EDGES, "a", "m") by {
      ForkHasEdge("it", "m");
      ForkHasEdge("a", "m");
    }
  }

  lemma ForkSpecs(aFirst: bool, config: Value, values: seq<Value>)
    ensures var ids := Ids(ForkNodes(aFirst, config, values));
            && "it" in ids && "m" in ids && "a" in ids
            && DeclIndex(ids, "it") == (if aFirst then 1 else 0) && DeclIndex(ids, "m") == (if aFirst then 2 else 1)
            && DeclIndex(ids, "a") == (if aFirst then 0 else 2)
    ensures SpecOf(Fork(aFirst, config, values), "it") == NodeSpec("it", "iterator", Over(values))
    ensures SpecOf(Fork(aFirst, config, values), "m") == NodeSpec("m", "plain", config)
    ensures SpecOf(Fork(aFirst, config, values), "a") == NodeSpec("a", "plain", NOTHING_SET)
  {
    var ids := Ids(ForkNodes(aFirst, config, values));
    ForkIds(aFirst, config, values);
    assert ids[0] in ids && ids[1] in ids && ids[2] in ids;
    assert ids[DeclIndex(ids, "it")] == "it" && ids[DeclIndex(ids, "m")] == "m" && ids[DeclIndex(ids, "a")] == "a";
  }

  /** Kahn's order of the fork. */
  lemma ForkOrderIsGreedy(aFirst: bool, config: Value, values: seq<Value>)
    ensures var ids := Ids(ForkNodes(aFirst, config, values));
            Greedy(ids, FORK_EDGES, ForkOrder(aFirst)) && Elements(ForkOrder(aFirst)) == Elements(ids)
  {
    ForkIds(aFirst, config, values);
    ForkSpecs(aFirst, config, values);
    var ids, order := Ids(ForkNodes(aFirst, config, values)), ForkOrder(aFirst);
    forall live: set<NodeId>, n: NodeId
      ensures InDegree(FORK_EDGES, live, n) == 0 <==> n != "m" || ("it" !in live && "a" !in live)
    {
      ForkDegree(live, n);
    }
    assert order[..0] == [] && order[..1] == [order[0]] && order[..2] == [order[0], order[1]];
    assert IsNext(ids, FORK_EDGES, [], order[0]);
    assert IsNext(ids, FORK_EDGES, [order[0]], order[1]);
    assert IsNext(ids, FORK_EDGES, [order[0], order[1]], order[2]);
  }

  lemma BelowFork(x: NodeId)
    ensures Descendants(FORK_EDGES, x) == if x == "it" || x == "a" then {"m"} else {}
  {
    forall y ensures y in Descendants(FORK_EDGES, x) <==> y == "m" && (x == "it" || x == "a") {
      ForkHasEdge(x, y);
      ClosuresAreConverse(FORK_EDGES, x, y);
      if HasEdge(FORK_EDGES, x, y) {
        EdgeReaches(FORK_EDGES, x, y);
      }
      if Reaches(FORK_EDGES, x, y) {
        var n: nat :| n > 0 && Walk(FORK_EDGES, x, y, n);
        ForkWalk(x, y, n);
      }
    }
  }

  lemma ForkWalk(x: NodeId, y: NodeId, n: nat)
    requires n > 0 && Walk(FORK_EDGES, x, y, n)
    ensures HasEdge(FORK_EDGES, x, y)
  {
    var c :| Walk(FORK_EDGES, x, c, n - 1) && HasEdge(FORK_EDGES, c, y);
    ForkHasEdge(c, y);
    if n > 1 {
      var d :| Walk(FORK_EDGES, x, d, n - 2) && HasEdge(FORK_EDGES, d, c);
      ForkHasEdge(d, c);
    }
  }

  // ---------------------------------------------------------------- it is accepted

  lemma ForkEdgesFit(aFirst: bool, config: Value, values: seq<Value>)
    ensures forall e :: e in FORK_EDGES ==> EdgeFits(FORK_CLASSES, Fork(aFirst, config, values), e)
    ensures PortsUnshared(FORK_CLASSES, Fork(aFirst, config, values))
  {
    ForkSpecs(aFirst, config, values);
    forall e | e in FORK_EDGES ensures EdgeFits(FORK_CLASSES, Fork(aFirst, config, values), e) {
      assert e == FORK_EDGES[0] || e == FORK_EDGES[1];
    }
  }

  lemma ForkIterators(aFirst: bool, config: Value, values: seq<Value>)
    ensures forall n :: n in IteratorIds(FORK_CLASSES, ForkNodes(aFirst, config, values)) ==> n == "it"
  {
    var nodes := ForkNodes(aFirst, config, values);
    forall n | n in IteratorIds(FORK_CLASSES, nodes) ensures n == "it" {
      IteratorIdsAre(FORK_CLASSES, nodes, n);
      var j :| 0 <= j < |nodes| && nodes[j].id == n && nodes[j].typeName in FORK_CLASSES
          && FORK_CLASSES[nodes[j].typeName].fanOut;
    }
  }

  /** Every reference of the config points to `a`. */
  ghost predicate PointsToA(config: Value) {
    forall ref :: ref in FindRefs(config) ==> ref.kind.Upstream? && StaticTarget(ref.path) == "a"
  }

  lemma ForkRefs(aFirst: bool, config: Value, values: seq<Value>)
    requires PointsToA(config) && Integers(values)
    ensures var nodes := ForkNodes(aFirst, config, values);
            forall node :: node in nodes ==>
                RefsAllowed(IteratorIds(FORK_CLASSES, nodes), Fork(aFirst, config, values), node)
  {
    var nodes := ForkNodes(aFirst, config, values);
    ForkSpecs(aFirst, config, values);
    BelowFork("a");
    ClosuresAreConverse(FORK_EDGES, "a", "m");
    OverIsLiteral(values);
    assert FindRefs(NOTHING_SET) == [];
    forall node | node in nodes
      ensures RefsAllowed(IteratorIds(FORK_CLASSES, nodes), Fork(aFirst, config, values), node) {
      assert FindRefs(node.config) == [] || (node.id == "m" && node.config == config);
    }
  }

  lemma ForkIsAcyclic(aFirst: bool, config: Value, values: seq<Value>)
    ensures var ids := Ids(ForkNodes(aFirst, config, values));
            LeastTopoOrder(ids, FORK_EDGES, ForkOrder(aFirst)) && !Cyclic(Known(ids, FORK_EDGES))
  {
    ForkOrderIsGreedy(aFirst, config, values);
    GreedyIsLeastTopoOrder(Ids(ForkNodes(aFirst, config, values)), FORK_EDGES, ForkOrder(aFirst));
  }

  lemma ForkTypes(aFirst: bool, config: Value, values: seq<Value>)
    ensures var nodes := ForkNodes(aFirst, config, values);
            nodes != [] && (forall node :: node in nodes ==> node.typeName in FORK_CLASSES)
            && IdsNonEmpty(Fork(aFirst, config, values))
  {
  }

  lemma OneIterator(iterators: seq<NodeId>, edges: seq<Edge>, it: NodeId)
    requires forall n :: n in iterators ==> n == it
    ensures ScopesSeparate(iterators, edges)
  {
  }

  lemma ForkIsAccepted(aFirst: bool, config: Value, values: seq<Value>)
    requires PointsToA(config) && Integers(values)
    ensures Accepted(FORK_CLASSES, Fork(aFirst, config, values))
  {
    var p := Fork(aFirst, config, values);
    ForkIds(aFirst, config, values);
    ForkTypes(aFirst, config, values);
    ForkIsAcyclic(aFirst, config, values);
    ForkEdgesFit(aFirst, config, values);
    ForkIterators(aFirst, config, values);
    OneIterator(IteratorIds(FORK_CLASSES, p.nodes), p.edges, "it");
    ForkRefs(aFirst, config, values);
  }

  /** A node without inputs and references, in a run without class checks. */
  ghost predicate IsRoot(env: Env, n: NodeId, config: Value) {
    && env.rt.checks == NO_CHECKS && n in Nodes(env) && InEdges(env.p.edges, n) == []
    && SpecOf(env.p, n).config == config && IsLiteral(config)
  }

  /** A plain node whose run does not depend on what ran before it. */
  ghost predicate AlwaysGives(env: Env, n: NodeId, r: Result<Outputs, NodeError>) {
    n in Nodes(env) && !FansOut(env, n) && forall view :: ExecuteNode(env.rt, env.p, n, view, None) == r
  }

  /** An iterator whose plan does not depend on what ran before it. */
  ghost predicate AlwaysPlans(env: Env, n: NodeId, plan: Plan) {
    n in Nodes(env) && FansOut(env, n) && forall view :: PlanOf(env.rt, env.p, n, view) == Ok(plan)
  }

  /** What the runs below use of the fork with `a` first. */
  ghost predicate ForkShape(env: Env, a: NodeId, it: NodeId, m: NodeId) {
    && |env.order| == 3 && env.order[0] == a && env.order[1] == it && env.order[2] == m && a != it && a != m && it != m
    && m in Nodes(env) && Below(env, it) == {m} && Below(env, a) == {m}
  }

  lemma ForkEnvIsValid(env: Env, aFirst: bool, config: Value, values: seq<Value>)
    requires env.p == Fork(aFirst, config, values) && env.order == ForkOrder(aFirst) && env.rt.registry == FORK_CLASSES
    requires env.maxConcurrency >= 1 && PointsToA(config) && Integers(values)
    ensures ValidEnv(env) && LeastTopoOrder(Ids(env.p.nodes), env.p.edges, env.order) && "m" in Nodes(env)
    ensures Below(env, "it") == {"m"} && Below(env, "a") == {"m"}
  {
    ForkIsAccepted(aFirst, config, values);
    ForkTypes(aFirst, config, values);
    ForkIsAcyclic(aFirst, config, values);
    ForkIds(aFirst, config, values);
    BelowFork("it");
    BelowFork("a");
  }

  lemma ForkHasShape(env: Env, config: Value, values: seq<Value>)
    requires env.p == Fork(true, config, values) && env.order == ForkOrder(true) && env.rt.registry == FORK_CLASSES
    requires env.maxConcurrency >= 1 && PointsToA(config) && Integers(values)
    ensures ValidEnv(env) && ForkShape(env, "a", "it", "m") && SpecOf(env.p, "m").config == config
  {
    ForkEnvIsValid(env, true, config, values);
    ForkSpecs(true, config, values);
  }

  lemma ForkIteratorPlans(env: Env, aFirst: bool, config: Value, values: seq<Value>)
    requires env.p == Fork(aFirst, config, values) && env.rt.registry == FORK_CLASSES && env.rt.checks == NO_CHECKS
    requires Integers(values)
    ensures AlwaysPlans(env, "it", Plan(values, Concat, None))
  {
    ForkSpecs(aFirst, config, values);
    ForkRoots();
    OverIsLiteral(values);
    OverPlans(values, map[]);
    forall view ensures PlanOf(env.rt, env.p, "it", view) == Ok(Plan(values, Concat, None)) {
      RootPlans(env, "it", Over(values), view, Plan(values, Concat, None));
    }
  }

  lemma ForkRootGives(env: Env, aFirst: bool, config: Value, values: seq<Value>, r: Result<Outputs, string>)
    requires env.p == Fork(aFirst, config, values) && env.rt.registry == FORK_CLASSES && env.rt.checks == NO_CHECKS
    requires env.rt.run("a", NOTHING_SET, map[], None) == r
    ensures AlwaysGives(env, "a", if r.Ok? then Ok(r.value) else Err(NodeError("a", Raised(r.error), None)))
  {
    ForkSpecs(aFirst, config, values);
    ForkRoots();
    forall view ensures ExecuteNode(env.rt, env.p, "a", view, None)
                        == if r.Ok? then Ok(r.value) else Err(NodeError("a", Raised(r.error), None)) {
      RootExecutes(env, "a", NOTHING_SET, view, r);
    }
  }

  lemma ForkRoots()
    ensures InEdges(FORK_EDGES, "a") == [] && InEdges(FORK_EDGES, "it") == []
  {
    forall e ensures e !in InEdges(FORK_EDGES, "a") && e !in InEdges(FORK_EDGES, "it") {}
  }

  /** Class checks that find nothing pass every config. */
  lemma NothingToCheck(reg: Registry, p: Pipeline)
    requires Accepted(reg, p)
    ensures Runnable(NO_CHECKS, reg, p)
  {
    forall i | 0 <= i < |p.nodes| ensures NodePasses(NO_CHECKS, reg, p, i) {
      OwnSpec(p, i);
      assert p.nodes[i] in p.nodes;
    }
  }

  lemma ForkIsRunnable(aFirst: bool, config: Value, values: seq<Value>)
    requires PointsToA(config) && Integers(values)
    ensures Runnable(NO_CHECKS, FORK_CLASSES, Fork(aFirst, config, values))
  {
    ForkIsAccepted(aFirst, config, values);
    NothingToCheck(FORK_CLASSES, Fork(aFirst, config, values));
  }

  // ---------------------------------------------------------------- an input that comes too late

  lemma ForkIsUnready(env: Env)
    requires env.p.edges == FORK_EDGES && env.order == ForkOrder(false) && "m" in Nodes(env)
    ensures !ScopeReady(env, 0)
  {
    BelowFork("it");
    assert FORK_EDGES[1] in env.p.edges;
    assert "a" in Reads(env.p, "m");
    assert env.order[..0] == [];
  }

  /** An accepted pipeline, in the engine's own order, with nodes that never fail by themselves:
      every iteration of its fan-out fails all the same. */
  lemma ValidationDoesNotSuffice(env: Env, values: seq<Value>, i: nat)
    requires Integers(values) && i < |values| && env == ForkEnv(false, NOTHING_SET, false, values, true)
    ensures ValidEnv(env) && Runnable(env.rt.checks, env.rt.registry, env.p)
    ensures LeastTopoOrder(Ids(env.p.nodes), env.p.edges, env.order) && "it" in Nodes(env)
    ensures PlanOf(env.rt, env.p, "it", map[]) == Ok(Plan(values, Concat, None))
    ensures var job := JobOf(env, map[], "it", Plan(values, Concat, None)); ValidJob(job) && IterationOf(job, i).Err?
  {
    assert FindRefs(NOTHING_SET) == [];
    ForkEnvIsValid(env, false, NOTHING_SET, values);
    ForkIsRunnable(false, NOTHING_SET, values);
    ForkIsUnready(env);
    ForkIteratorPlans(env, false, NOTHING_SET, values);
    RunBegins(env);
    UnreadyScopeFailsEveryIteration(env, [Moment(NOTHING, false)], 0, Plan(values, Concat, None), i);
  }

  // ---------------------------------------------------------------- single turns

  lemma LiteralResolves(config: Value, ctx: Context, render: Value -> string)
    requires IsLiteral(config)
    ensures ResolveConfig(config, ctx, render) == Ok(config)
  {
    NoReferencesOnlyUnescapes(config, ctx, render);
  }

  /** A root runs on its config and nothing else. */
  lemma RootRuns(env: Env, n: NodeId, config: Value, view: View)
    requires IsRoot(env, n, config)
    ensures Prepare(env.rt, env.p, n, view, None) == Ok((config, map[]))
  {
    LiteralResolves(config, ContextOf(env.rt, view, None), env.rt.render);
  }

  lemma RootPlans(env: Env, n: NodeId, config: Value, view: View, plan: Plan)
    requires IsRoot(env, n, config) && PlanFrom(config, map[]) == Ok(plan)
    ensures PlanOf(env.rt, env.p, n, view) == Ok(plan)
  {
    RootRuns(env, n, config, view);
  }

  lemma RootExecutes(env: Env, n: NodeId, config: Value, view: View, r: Result<Outputs, string>)
    requires IsRoot(env, n, config) && env.rt.run(n, config, map[], None) == r
    ensures ExecuteNode(env.rt, env.p, n, view, None) == if r.Ok? then Ok(r.value)
            else Err(NodeError(n, Raised(r.error), None))
  {
    RootRuns(env, n, config, view);
  }

  lemma FailsWithOneBelow(env: Env, n: NodeId, m: NodeId, e: NodeError)
    requires !env.failFast && Below(env, n) == {m} && m != n
    ensures var s := NodeFails(env, NOTHING, n, e);
            (forall x :: x in s.results ==> x == n || x == m) && Is(s, n, FAILED) && Is(s, m, SKIPPED)
  {
  }

  lemma SucceedsFirst(env: Env, n: NodeId, outputs: Outputs)
    ensures var s := NodeSucceeds(env, NOTHING, n, outputs);
            (forall x :: x in s.results ==> x == n) && s.outputs == map[n := outputs] && s.errors == []
  {
  }

  /** A first node that fails skips the only node below it. */
  lemma FirstFails(env: Env, a: NodeId, m: NodeId, e: NodeError) returns (s: Snapshot)
    requires ValidEnv(env) && !env.failFast && env.order != [] && env.order[0] == a && AlwaysGives(env, a, Err(e))
    requires Below(env, a) == {m} && m != a
    ensures s == SeqRun(env, 1) && (forall x :: x in s.results ==> x == a || x == m) && Is(s, a, FAILED)
    ensures Is(s, m, SKIPPED)
  {
    PlainTurn(env, 0, NOTHING, a, Err(e));
    FailsWithOneBelow(env, a, m, e);
    s := NodeFails(env, NOTHING, a, e);
  }

  lemma FirstSucceeds(env: Env, a: NodeId, outputs: Outputs) returns (s: Snapshot)
    requires ValidEnv(env) && env.order != [] && env.order[0] == a && AlwaysGives(env, a, Ok(outputs))
    ensures s == SeqRun(env, 1) && (forall x :: x in s.results ==> x == a) && s.outputs == map[a := outputs]
    ensures s.errors == []
  {
    PlainTurn(env, 0, NOTHING, a, Ok(outputs));
    SucceedsFirst(env, a, outputs);
    s := NodeSucceeds(env, NOTHING, a, outputs);
  }

  lemma MemberHasResult(s: Snapshot, s': Snapshot, members: set<NodeId>, failures: seq<Failure>, m: NodeId)
    requires Joined(s, s', members, failures) && m in members
    ensures m in s'.results
  {
  }

  lemma IdleMember(env: Env, s: Snapshot, s': Snapshot, members: set<NodeId>, failures: seq<Failure>, m: NodeId)
    requires ValidEnv(env) && |env.order| == 3 && env.order[2] == m && m in members && m in Nodes(env)
    requires s' == SeqRun(env, 2)
    requires Joined(s, s', members, failures)
    ensures SeqRun(env, 3) == s'
  {
    MemberHasResult(s, s', members, failures, m);
    IdleTurn(env, 2, s');
  }

  /** An iterator fans out over its values; a member of its scope that comes next has its result then. */
  lemma IteratorJoins(env: Env, it: NodeId, m: NodeId, s: Snapshot, plan: Plan)
    returns (s': Snapshot, job: Job, members: set<NodeId>, failures: seq<Failure>)
    requires ValidEnv(env) && |env.order| == 3 && env.order[1] == it && env.order[2] == m && m in Nodes(env)
    requires AlwaysPlans(env, it, plan) && m in Below(env, it) && s == SeqRun(env, 1) && it !in s.results
    ensures job == JobOf(env, s.outputs, it, plan) && ValidJob(job) && failures == Failures(Sequential(job))
    ensures s' == SeqRun(env, 3) && members == {it} + Below(env, it) && Joined(s, s', members, failures)
  {
    job := FanoutTurn(env, 1, s, it, plan);
    s' := SeqRun(env, 2);
    members, failures := {it} + Below(env, it), Failures(Sequential(job));
    IdleMember(env, s, s', members, failures, m);
  }

  // ---------------------------------------------------------------- a descendant of a failure succeeds

  lemma JoinedWithoutFailures(s: Snapshot, s': Snapshot, members: set<NodeId>, failures: seq<Failure>, m: NodeId,
                              x: NodeId)
    requires Joined(s, s', members, failures) && failures == [] && x in s.results && x !in members && m in members
    ensures Is(s', m, SUCCEEDED) && x in s'.results && s'.results[x] == s.results[x]
  {
    assert ResultFor(s'.results[m], [], m);
  }

  lemma NoValuesNoFailures(job: Job, failures: seq<Failure>)
    requires ValidJob(job) && job.values == [] && failures == Failures(Sequential(job))
    ensures failures == []
  {
  }

  /** Without values, the member succeeds and what is outside stays. */
  lemma OverwrittenSkip(env: Env, a: NodeId, it: NodeId, m: NodeId, e: NodeError, plan: Plan)
    requires ValidEnv(env) && !env.failFast && ForkShape(env, a, it, m)
    requires AlwaysGives(env, a, Err(e)) && AlwaysPlans(env, it, plan) && plan.values == []
    ensures Is(SeqRun(env, 1), m, SKIPPED) && Is(SeqRun(env, 3), a, FAILED) && Is(SeqRun(env, 3), m, SUCCEEDED)
  {
    var s := FirstFails(env, a, m, e);
    var s', job, members, failures := IteratorJoins(env, it, m, s, plan);
    NoValuesNoFailures(job, failures);
    JoinedWithoutFailures(s, s', members, failures, m, a);
  }

  /** An accepted continue-on-error run in which `a` fails and its descendant `m`, skipped at first,
      ends succeeded: the fan-in of an iterator without values has overwritten the skip. */
  lemma DescendantOfFailureCanSucceed(env: Env)
    requires env == ForkEnv(true, NOTHING_SET, true, [], false)
    ensures ValidEnv(env) && Runnable(env.rt.checks, env.rt.registry, env.p)
    ensures LeastTopoOrder(Ids(env.p.nodes), env.p.edges, env.order) && "m" in Below(env, "a")
    ensures Is(SeqRun(env, 1), "m", SKIPPED)
    ensures Is(SeqRun(env, |env.order|), "a", FAILED) && Is(SeqRun(env, |env.order|), "m", SUCCEEDED)
  {
    assert FindRefs(NOTHING_SET) == [];
    ForkHasShape(env, NOTHING_SET, []);
    ForkEnvIsValid(env, true, NOTHING_SET, []);
    ForkIsRunnable(true, NOTHING_SET, []);
    ForkRootGives(env, true, NOTHING_SET, [], Err("refused"));
    ForkIteratorPlans(env, true, NOTHING_SET, []);
    OverwrittenSkip(env, "a", "it", "m", NodeError("a", Raised("refused"), None), Plan([], Concat, None));
  }

  // ---------------------------------------------------------------- an exception escapes

  /** A config with the reference `$upstream.a.--5`. */
  const DOUBLE_DASH := Dict([Entry("keys", List([Str("$upstream.a.--5")]))])

  lemma DoubleDashMatches()
    ensures MatchWhole("$upstream.a.--5") == Some(Ref(Upstream, "a.--5"))
    ensures !Strings.StartsWith("$upstream.a.--5", "$$")
  {
    var s := "$upstream.a.--5";
    assert s[..10] == "$upstream." && s[10..] == "a.--5";
    assert s[|s| - 1] == '5';
    assert s[..2][1] == 'u';
  }

  lemma DoubleDashRefs()
    ensures FindRefs(DOUBLE_DASH) == [Ref(Upstream, "a.--5")]
    ensures PointsToA(DOUBLE_DASH)
  {
    DoubleDashMatches();
    var items := [Str("$upstream.a.--5")];
    assert FindRefs(items[0]) == [Ref(Upstream, "a.--5")] && items[1..] == [];
    assert RefsInItems(items) == [Ref(Upstream, "a.--5")];
    var entries := DOUBLE_DASH.entries;
    assert entries[1..] == [] && FindRefs(entries[0].value) == [Ref(Upstream, "a.--5")];
    assert "a.--5"[1..] == ".--5";
    assert StaticTarget(".--5") == [];
  }

  lemma DoubleDashFails(rt: Runtime, p: Pipeline, n: NodeId, view: View, iter: Option<Iteration>)
    requires n in Ids(p.nodes) && SpecOf(p, n).config == DOUBLE_DASH && "a" in view
    ensures ExecuteNode(rt, p, n, view, iter) == Err(NodeError(n, Unresolved(MalformedIndex("a.--5")), None))
  {
    var ctx := ContextOf(rt, view, iter);
    DoubleDashRefs();
    DoubleDashRaises(ctx);
    ResolveFailsLikeFirstReference(DOUBLE_DASH, ctx, rt.render);
  }

  lemma DoubleDashNext(job: Job, m: NodeId, local: View)
    requires ValidJob(job) && job.scope == [m] && |job.values| == 1 && m in Ids(job.p.nodes)
    requires SpecOf(job.p, m).config == DOUBLE_DASH && "a" in job.base
    ensures var r := RunNext(job, 0, 0, local); r.Err? && Escapes(r.error.error)
  {
    DoubleDashFails(job.rt, job.p, m, job.base + local, Some(Iteration(job.values[0], 0)));
  }

  lemma DoubleDashIteration(job: Job, m: NodeId)
    requires ValidJob(job) && job.scope == [m] && |job.values| == 1 && m in Ids(job.p.nodes)
    requires SpecOf(job.p, m).config == DOUBLE_DASH && "a" in job.base
    ensures IterationOf(job, 0).Err? && Escapes(IterationOf(job, 0).error.error)
  {
    var step, local := RunStep(job, 0), Seed(job, 0);
    DoubleDashNext(job, m, local);
    ChainAdvance(step, local, 0, 1, local);
  }

  lemma LastOfThree(order: seq<NodeId>, scope: set<NodeId>)
    requires |order| == 3 && order[0] !in scope && order[1] !in scope && order[2] in scope
    ensures Restrict(order, scope) == [order[2]]
  {
    assert order[..2][..1] == order[..1] && order[..1][..0] == [];
    assert Restrict(order[..1], scope) == [];
    assert Restrict(order[..2], scope) == [];
  }

  lemma OneFailure(job: Job)
    requires ValidJob(job) && |job.values| == 1 && IterationOf(job, 0).Err?
    ensures ErrorsOf(Failures(Sequential(job))) == [IterationOf(job, 0).error.error]
  {
    var tasks := Sequential(job);
    assert tasks[0] == Settled(job, 0);
    assert tasks[..0] == [];
    assert Failures(tasks) == [IterationOf(job, 0).error];
  }

  lemma SoleError(s: Snapshot, s': Snapshot, members: set<NodeId>, failures: seq<Failure>, e: NodeError)
    requires Joined(s, s', members, failures) && s.errors == [] && ErrorsOf(failures) == [e]
    ensures s'.errors == [e]
  {
  }

  /** The only iteration raises. */
  lemma RaisingJob(job: Job, order: seq<NodeId>, m: NodeId, failures: seq<Failure>) returns (e: NodeError)
    requires ValidJob(job) && |order| == 3 && order[2] == m && order[0] != m && order[1] != m
    requires job.scope == Restrict(order, {m}) && |job.values| == 1 && m in Ids(job.p.nodes)
    requires SpecOf(job.p, m).config == DOUBLE_DASH && "a" in job.base && failures == Failures(Sequential(job))
    ensures ErrorsOf(failures) == [e] && Escapes(e)
  {
    LastOfThree(order, {m});
    DoubleDashIteration(job, m);
    OneFailure(job);
    e := IterationOf(job, 0).error.error;
  }

  /** The continue-on-error run meets the exception, and nothing else. */
  lemma DoubleDashEscapes(env: Env, a: NodeId, it: NodeId, m: NodeId, outputs: Outputs, plan: Plan)
    returns (s': Snapshot)
    requires ValidEnv(env) && a == "a" && ForkShape(env, a, it, m) && SpecOf(env.p, m).config == DOUBLE_DASH
    requires AlwaysGives(env, a, Ok(outputs)) && AlwaysPlans(env, it, plan) && |plan.values| == 1
    ensures s' == SeqRun(env, 3) && |s'.errors| == 1 && Escapes(s'.errors[0])
  {
    var s := FirstSucceeds(env, a, outputs);
    var job, members, failures;
    s', job, members, failures := IteratorJoins(env, it, m, s, plan);
    var e := RaisingJob(job, env.order, m, failures);
    SoleError(s, s', members, failures, e);
  }

  lemma LenientForkEscapes(env: Env)
    requires env == ForkEnv(true, DOUBLE_DASH, false, [Int(1)], false)
    ensures ValidEnv(env) && |env.order| == 3
    ensures var errors := SeqRun(env, 3).errors; |errors| == 1 && Escapes(errors[0])
  {
    DoubleDashRefs();
    ForkHasShape(env, DOUBLE_DASH, [Int(1)]);
    ForkRootGives(env, true, DOUBLE_DASH, [Int(1)], Ok(map["out" := []]));
    ForkIteratorPlans(env, true, DOUBLE_DASH, [Int(1)]);
    var s' := DoubleDashEscapes(env, "a", "it", "m", map["out" := []], Plan([Int(1)], Concat, None));
  }

  /** An accepted pipeline from whose every run, in both modes, an exception escapes. */
  lemma AcceptedPipelineCanRaise(env: Env, failFast: bool, trace: seq<Moment>)
    requires env == ForkEnv(true, DOUBLE_DASH, false, [Int(1)], failFast)
    ensures ValidEnv(env) && Runnable(env.rt.checks, env.rt.registry, env.p)
    ensures LeastTopoOrder(Ids(env.p.nodes), env.p.edges, env.order)
    ensures IsEngineRun(env, trace) && |trace| == |env.order| + 1 ==> SomeEscapes(trace[|env.order|].state.errors)
  {
    DoubleDashRefs();
    ForkEnvIsValid(env, true, DOUBLE_DASH, [Int(1)]);
    ForkIsRunnable(true, DOUBLE_DASH, [Int(1)]);
    LenientForkEscapes(Lenient(env));
    if IsEngineRun(env, trace) && |trace| == |env.order| + 1 {
      RunEscapes(env, trace);
    }
  }

  lemma RunEscapes(env: Env, trace: seq<Moment>)
    requires ValidEnv(env) && IsEngineRun(env, trace) && |trace| == |env.order| + 1
    requires var errors := SeqRun(Lenient(env), |env.order|).errors; |errors| == 1 && Escapes(errors[0])
    ensures SomeEscapes(trace[|env.order|].state.errors)
  {
    EveryRunIsLawful(env, trace);
    LawfulErrors(env, trace[|env.order|].state);
    SoleErrorEscapes(trace[|env.order|].state.errors, SeqRun(Lenient(env), |env.order|).errors);
  }

  lemma SoleErrorEscapes(errors: seq<NodeError>, lenient: seq<NodeError>)
    requires |lenient| == 1 && Escapes(lenient[0]) && errors != [] && forall e :: e in errors ==> e in lenient
    ensures SomeEscapes(errors)
  {
    assert errors[0] in errors;
  }
}
