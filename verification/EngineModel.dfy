/** The state of a run and what each step of `execute_pipeline` does to it. */
module EngineModel {
  import opened Wrappers
  import opened Graphs
  import opened Topo
  import opened Pipelines
  import opened NodeExecution
  import opened Fanout

  datatype Status = SUCCEEDED | FAILED | SKIPPED

  datatype NodeResult = NodeResult(status: Status, recordsOut: Option<nat>, iterations: Option<nat>,
      error: Option<NodeError>)

  /** `_State`: buffered outputs, results so far, errors in the order they were recorded. */
  datatype Snapshot = Snapshot(outputs: View, results: map<NodeId, NodeResult>, errors: seq<NodeError>)

  /** One call of the executor: the pipeline, the node order it follows, and its options. */
  datatype Env = Env(rt: Runtime, p: Pipeline, order: seq<NodeId>, failFast: bool, maxConcurrency: nat)

  ghost predicate ValidEnv(env: Env) {
    && Accepted(env.rt.registry, env.p)
    && IdsNonEmpty(env.p)
    && IsTopoOrder(Ids(env.p.nodes), env.p.edges, env.order)
    && env.maxConcurrency >= 1
  }

  function Nodes(env: Env): set<NodeId> {
    Elements(Ids(env.p.nodes))
  }

  predicate FansOut(env: Env, n: NodeId) {
    IsIterator(env.rt.registry, env.p, n)
  }

  ghost predicate NoIterators(env: Env) {
    forall n :: !FansOut(env, n)
  }

  ghost function Below(env: Env, n: NodeId): set<NodeId> {
    Descendants(env.p.edges, n)
  }

  ghost function Above(env: Env, n: NodeId): set<NodeId> {
    Ancestors(env.p.edges, n)
  }

  /** `n` is downstream of some iterator. */
  ghost predicate InSomeScope(env: Env, n: NodeId) {
    exists it :: FansOut(env, it) && n in Below(env, it)
  }

  /** `[n for n in topo if n in scope]`. */
  function Restrict(order: seq<NodeId>, scope: set<NodeId>): (r: seq<NodeId>)
    ensures forall n :: n in r <==> n in order && n in scope
  {
    if order == [] then []
    else
      var n, front := order[|order| - 1], order[..|order| - 1];
      assert order == front + [n];
      Restrict(front, scope) + if n in scope then [n] else []
  }

  // ---------------------------------------------------------------- results

  const SKIPPED_RESULT := NodeResult(SKIPPED, None, None, None)

  function FailedResult(e: NodeError): NodeResult {
    NodeResult(FAILED, None, None, Some(e))
  }

  /** `_skip`: nodes without a result are marked skipped. */
  function SkipAll(results: map<NodeId, NodeResult>, nodes: set<NodeId>): map<NodeId, NodeResult> {
    map n | n in results.Keys + nodes :: if n in results then results[n] else SKIPPED_RESULT
  }

  // ---------------------------------------------------------------- plain nodes

  /** Run a plain node. A failure skips what is downstream, or aborts the run. */
  ghost function AfterNode(env: Env, s: Snapshot, n: NodeId): (Snapshot, bool)
    requires n in Nodes(env)
  {
    var r := ExecuteNode(env.rt, env.p, n, s.outputs, None);
    (Recorded(env, s, n, r), r.Err? && env.failFast)
  }

  ghost function Recorded(env: Env, s: Snapshot, n: NodeId, r: Result<Outputs, NodeError>): Snapshot {
    match r case Ok(outputs) => NodeSucceeds(env, s, n, outputs) case Err(e) => NodeFails(env, s, n, e)
  }

  function NodeSucceeds(env: Env, s: Snapshot, n: NodeId, outputs: Outputs): Snapshot {
    Snapshot(s.outputs[n := outputs],
             s.results[n := NodeResult(SUCCEEDED, Some(|Primary(env.rt, outputs)|), None, None)],
             s.errors)
  }

  ghost function NodeFails(env: Env, s: Snapshot, n: NodeId, e: NodeError): Snapshot {
    var failed := s.results[n := FailedResult(e)];
    Snapshot(s.outputs, if env.failFast then failed else SkipAll(failed, Below(env, n)), s.errors + [e])
  }

  // ---------------------------------------------------------------- iterators

  /** The iterator cannot produce its values: its scope is skipped. */
  ghost function PlanFails(env: Env, s: Snapshot, it: NodeId, e: NodeError): Snapshot {
    Snapshot(s.outputs, SkipAll(s.results[it := FailedResult(e)], Below(env, it)), s.errors + [e])
  }

  function Cap(env: Env, plan: Plan): nat {
    if plan.cap.Some? && plan.cap.value > 0 then plan.cap.value else env.maxConcurrency
  }

  ghost function JobOf(env: Env, outputs: View, it: NodeId, plan: Plan): Job {
    Job(env.rt, env.p, outputs, it, Restrict(env.order, Below(env, it)), plan.values, Cap(env, plan), env.failFast)
  }

  function ErrorsOf(failures: seq<Failure>): seq<NodeError> {
    seq(|failures|, i requires 0 <= i < |failures| => failures[i].error)
  }

  /** `first_error_for`. */
  function FirstErrorFor(failures: seq<Failure>, n: NodeId): Option<NodeError> {
    if failures == [] then None
    else if failures[0].node == n then Some(failures[0].error)
    else FirstErrorFor(failures[1..], n)
  }

  function DeclaredPorts(env: Env, n: NodeId): set<string>
    requires n in Nodes(env)
  {
    if SpecOf(env.p, n).typeName in env.rt.registry then env.rt.registry[SpecOf(env.p, n).typeName].outputPorts else {}
  }

  function MemberOutputs(env: Env, plan: Plan, tasks: seq<Task>, m: NodeId): Outputs
    requires m in Nodes(env) && |tasks| == |plan.values|
  {
    Combined(plan.values, plan.fanIn, DeclaredPorts(env, m), tasks, m)
  }

  function MemberResult(env: Env, it: NodeId, plan: Plan, tasks: seq<Task>, m: NodeId): NodeResult
    requires m in Nodes(env) && |tasks| == |plan.values|
  {
    var e := FirstErrorFor(Failures(tasks), m);
    NodeResult(if e.Some? then FAILED else SUCCEEDED,
               Some(|Primary(env.rt, MemberOutputs(env, plan, tasks, m))|),
               Some(if m == it then |plan.values| else Participations(tasks, m)),
               e)
  }

  /** Fail-fast with failures: the first failing node, everything else of the fan-out skipped. */
  ghost function FanoutAborts(env: Env, s: Snapshot, it: NodeId, tasks: seq<Task>): Snapshot
    requires Failures(tasks) != []
  {
    var failures := Failures(tasks);
    Snapshot(s.outputs,
             SkipAll(s.results[failures[0].node := FailedResult(failures[0].error)], {it} + Below(env, it)),
             s.errors + ErrorsOf(failures))
  }

  function AllOutputs(env: Env, plan: Plan, tasks: seq<Task>, members: set<NodeId>): (r: View)
    requires members <= Nodes(env) && |tasks| == |plan.values|
    ensures r.Keys == members
  {
    map m | m in members :: MemberOutputs(env, plan, tasks, m)
  }

  function AllResults(env: Env, it: NodeId, plan: Plan, tasks: seq<Task>, members: set<NodeId>)
    : (r: map<NodeId, NodeResult>)
    requires members <= Nodes(env) && |tasks| == |plan.values|
    ensures r.Keys == members
    ensures forall m :: m in members ==> ResultFor(r[m], Failures(tasks), m)
  {
    map m | m in members :: MemberResult(env, it, plan, tasks, m)
  }

  /** A member failed exactly when some iteration failed in it; it reports the first such error. */
  predicate ResultFor(r: NodeResult, failures: seq<Failure>, m: NodeId) {
    && r.error == FirstErrorFor(failures, m)
    && r.status == if r.error.Some? then FAILED else SUCCEEDED
  }

  /** Otherwise every member gets its combined outputs and a result, replacing any earlier one. */
  ghost function FanoutJoins(env: Env, s: Snapshot, it: NodeId, plan: Plan, tasks: seq<Task>): Snapshot
    requires it in Nodes(env) && Below(env, it) <= Nodes(env) && |tasks| == |plan.values|
  {
    var members := {it} + Below(env, it);
    Snapshot(s.outputs + AllOutputs(env, plan, tasks, members),
             s.results + AllResults(env, it, plan, tasks, members),
             s.errors + ErrorsOf(Failures(tasks)))
  }

  /** A fan-in replaces exactly the members' entries. */
  ghost predicate Joined(s: Snapshot, s': Snapshot, members: set<NodeId>, failures: seq<Failure>) {
    && s'.outputs.Keys == s.outputs.Keys + members
    && s'.results.Keys == s.results.Keys + members
    && s'.errors == s.errors + ErrorsOf(failures)
    && (forall m :: m in s.outputs && m !in members ==> s'.outputs[m] == s.outputs[m])
    && (forall m :: m in s.results && m !in members ==> s'.results[m] == s.results[m])
    && forall m :: m in members ==> ResultFor(s'.results[m], failures, m)
  }

  lemma JoinsAre(env: Env, s: Snapshot, it: NodeId, plan: Plan, tasks: seq<Task>)
    requires it in Nodes(env) && Below(env, it) <= Nodes(env) && |tasks| == |plan.values|
    ensures Joined(s, FanoutJoins(env, s, it, plan, tasks), {it} + Below(env, it), Failures(tasks))
  {
    var members := {it} + Below(env, it);
    var outs, res := AllOutputs(env, plan, tasks, members), AllResults(env, it, plan, tasks, members);
    Overwrites(s, outs, res, members, Failures(tasks));
  }

  lemma Overwrites(s: Snapshot, outs: View, res: map<NodeId, NodeResult>, members: set<NodeId>, failures: seq<Failure>)
    requires outs.Keys == members == res.Keys
    requires forall m :: m in members ==> ResultFor(res[m], failures, m)
    ensures Joined(s, Snapshot(s.outputs + outs, s.results + res, s.errors + ErrorsOf(failures)), members, failures)
  {
  }

  ghost function AfterFanout(env: Env, s: Snapshot, it: NodeId, plan: Plan, tasks: seq<Task>): (Snapshot, bool)
    requires it in Nodes(env) && Below(env, it) <= Nodes(env) && |tasks| == |plan.values|
  {
    if env.failFast && Failures(tasks) != [] then (FanoutAborts(env, s, it, tasks), true)
    else (FanoutJoins(env, s, it, plan, tasks), false)
  }

  /** What a fan-out may leave behind, over all interleavings of its iterations. */
  ghost predicate FanoutStep(env: Env, s: Snapshot, it: NodeId, s': Snapshot, abort': bool)
    requires ValidEnv(env) && it in Nodes(env) && Below(env, it) <= Nodes(env)
  {
    match PlanOf(env.rt, env.p, it, s.outputs)
    case Err(e) => s' == PlanFails(env, s, it, e) && abort' == env.failFast
    case Ok(plan) =>
      var job := JobOf(env, s.outputs, it, plan);
      ValidJob(job) && exists tasks ::
          TasksOk(job, tasks) && AllFinished(tasks) && (s', abort') == AfterFanout(env, s, it, plan, tasks)
  }

  /** What a node's turn may do: nothing if it has a result, a skip after an abort, a fan-out, or
      running it. */
  ghost predicate TurnStep(env: Env, n: NodeId, s: Snapshot, aborted: bool, s': Snapshot, abort: bool)
    requires ValidEnv(env) && n in Nodes(env) && Below(env, n) <= Nodes(env)
  {
    if n in s.results then s' == s && abort == aborted
    else if aborted then s' == s.(results := SkipAll(s.results, {n})) && abort
    else if FansOut(env, n) then FanoutStep(env, s, n, s', abort)
    else (s', abort) == AfterNode(env, s, n)
  }

  // ---------------------------------------------------------------- graph facts of accepted pipelines

  lemma {:induction false} KnownAll(ids: seq<NodeId>, edges: seq<Edge>)
    requires forall e :: e in edges ==> e.src in ids && e.dst in ids
    ensures Known(ids, edges) == edges
  {
    if edges != [] {
      var front, e := edges[..|edges| - 1], edges[|edges| - 1];
      assert edges == front + [e];
      KnownAll(ids, front);
      assert e in edges;
    }
  }

  lemma AllEdgesKnown(env: Env)
    requires ValidEnv(env)
    ensures Known(Ids(env.p.nodes), env.p.edges) == env.p.edges
    ensures !Cyclic(env.p.edges)
    ensures Endpoints(env.p.edges) <= Nodes(env)
  {
    forall e | e in env.p.edges ensures e.src in Ids(env.p.nodes) && e.dst in Ids(env.p.nodes) {
      assert EdgeFits(env.rt.registry, env.p, e);
    }
    KnownAll(Ids(env.p.nodes), env.p.edges);
  }

  lemma OrderCovers(env: Env)
    requires ValidEnv(env)
    ensures Elements(env.order) == Nodes(env)
    ensures forall k :: 0 <= k < |env.order| ==> env.order[k] in Nodes(env)
  {
    forall k | 0 <= k < |env.order| ensures env.order[k] in Nodes(env) {
      assert env.order[k] in Elements(env.order);
    }
  }

  /** One node lies below another only if it comes later in the order. */
  lemma BelowGoesForward(env: Env, a: NodeId, b: NodeId) returns (i: nat, j: nat)
    requires ValidEnv(env) && Reaches(env.p.edges, a, b)
    ensures i < j < |env.order| && env.order[i] == a && env.order[j] == b
  {
    AllEdgesKnown(env);
    var w: nat :| w > 0 && Walk(env.p.edges, a, b, w);
    WalkGoesForward(Ids(env.p.nodes), env.p.edges, env.order, a, b, w);
    i, j :| 0 <= i < j < |env.order| && env.order[i] == a && env.order[j] == b;
  }

  lemma PositionIsUnique(s: seq<NodeId>, i: nat, j: nat)
    requires Distinct(s) && i < |s| && j < |s| && s[i] == s[j]
    ensures i == j
  {
  }

  lemma NotAmongFirst(s: seq<NodeId>, i: nat, k: nat)
    requires Distinct(s) && k <= i < |s|
    ensures s[i] !in Elements(s[..k])
  {
    assert forall x :: 0 <= x < k ==> s[..k][x] == s[x] != s[i];
  }

  /** What lies below a node comes later in the order. */
  lemma BelowIsLater(env: Env, k: nat, m: NodeId)
    requires ValidEnv(env) && k < |env.order| && m in Below(env, env.order[k])
    ensures m in Nodes(env) && m !in Elements(env.order[..k + 1]) && m != env.order[k]
  {
    OrderCovers(env);
    var i, j := BelowGoesForward(env, env.order[k], m);
    PositionIsUnique(env.order, i, k);
    NotAmongFirst(env.order, j, k + 1);
    assert env.order[..k + 1][k] == env.order[k];
  }

  /** What lies above a node comes earlier in the order. */
  lemma AboveIsEarlier(env: Env, k: nat, a: NodeId)
    requires ValidEnv(env) && k < |env.order| && a in Above(env, env.order[k])
    ensures a in Elements(env.order[..k])
  {
    var i, j := BelowGoesForward(env, a, env.order[k]);
    PositionIsUnique(env.order, j, k);
    assert env.order[..k][i] == a;
  }

  lemma {:induction false} IteratorIdsAre(reg: Registry, nodes: seq<NodeSpec>, n: NodeId)
    ensures n in IteratorIds(reg, nodes) <==>
            exists node :: node in nodes && node.id == n && node.typeName in reg && reg[node.typeName].fanOut
  {
    if nodes != [] {
      var front, last := nodes[..|nodes| - 1], nodes[|nodes| - 1];
      assert nodes == front + [last];
      IteratorIdsAre(reg, front, n);
    }
  }

  lemma IteratorsAre(env: Env, n: NodeId)
    requires ValidEnv(env)
    ensures FansOut(env, n) <==> n in IteratorIds(env.rt.registry, env.p.nodes)
  {
    IteratorIdsAre(env.rt.registry, env.p.nodes, n);
    if node :| node in env.p.nodes && node.id == n {
      var i :| 0 <= i < |env.p.nodes| && env.p.nodes[i] == node;
      assert Ids(env.p.nodes)[i] == n;
      assert i == DeclIndex(Ids(env.p.nodes), n) by { assert Distinct(Ids(env.p.nodes)); }
    }
  }

  lemma AcceptedScopes(reg: Registry, p: Pipeline)
    requires Accepted(reg, p)
    ensures ScopesSeparate(IteratorIds(reg, p.nodes), p.edges)
  {
  }

  lemma SeparateScopes(iterators: seq<NodeId>, edges: seq<Edge>, a: NodeId, b: NodeId)
    requires ScopesSeparate(iterators, edges) && a in iterators && b in iterators && a != b
    ensures b !in Descendants(edges, a) && Descendants(edges, a) !! Descendants(edges, b)
  {
  }

  /** Scopes contain no other iterator and do not meet. */
  lemma ScopesApart(env: Env, a: NodeId, b: NodeId)
    requires ValidEnv(env) && FansOut(env, a) && FansOut(env, b) && a != b
    ensures b !in Below(env, a) && Below(env, a) !! Below(env, b)
  {
    IteratorsAre(env, a);
    IteratorsAre(env, b);
    AcceptedScopes(env.rt.registry, env.p);
    SeparateScopes(IteratorIds(env.rt.registry, env.p.nodes), env.p.edges, a, b);
  }

  lemma BelowTransitive(env: Env, a: NodeId, b: NodeId)
    requires b in Below(env, a)
    ensures Below(env, b) <= Below(env, a)
  {
    forall c | c in Below(env, b) ensures c in Below(env, a) {
      ReachesTransitive(env.p.edges, a, b, c);
    }
  }

  lemma BelowAbove(env: Env, a: NodeId, b: NodeId)
    ensures b in Below(env, a) <==> a in Above(env, b)
  {
    ClosuresAreConverse(env.p.edges, a, b);
  }

  lemma BelowNodes(env: Env, n: NodeId)
    requires ValidEnv(env)
    ensures Below(env, n) <= Nodes(env) && Above(env, n) <= Nodes(env)
    ensures n !in Below(env, n)
  {
    AllEdgesKnown(env);
    assert !Reaches(env.p.edges, n, n);
  }

  lemma JobIsValid(env: Env, outputs: View, it: NodeId, plan: Plan)
    requires ValidEnv(env)
    ensures ValidJob(JobOf(env, outputs, it, plan))
    ensures forall n :: n in JobOf(env, outputs, it, plan).scope <==> n in Below(env, it)
  {
    OrderCovers(env);
    BelowNodes(env, it);
    var scope := Restrict(env.order, Below(env, it));
    forall k | 0 <= k < |scope| ensures scope[k] in Ids(env.p.nodes) {
      assert scope[k] in scope;
    }
    forall n | n in Below(env, it) ensures n in scope {
      assert n in Elements(env.order);
    }
  }
}
