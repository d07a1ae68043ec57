/** When a scope's inputs from outside are there. The whole scope of an iterator runs at the
    iterator's own place in the order, so what its members read from outside must come earlier. */
module ScopeInputs {
  import opened Wrappers
  import opened Chains
  import opened Graphs
  import opened Topo
  import opened Json
  import opened References
  import opened Pipelines
  import opened NodeExecution
  import opened Fanout
  import opened EngineModel
  import opened FailFast
  import opened Meaning
  import opened ContinueOnError
  import opened Runs

  /** What the members of the scope of `order[k]` read comes from the fan-out itself or earlier. */
  ghost predicate ScopeReady(env: Env, k: nat)
    requires k < |env.order|
  {
    var it := env.order[k];
    forall m :: m in Below(env, it) ==>
        m in Nodes(env) && Reads(env.p, m) <= {it} + Below(env, it) + Elements(env.order[..k])
  }

  // ---------------------------------------------------------------- ready scopes

  lemma RunNextKeys(job: Job, i: nat, k: nat, local: View)
    requires i < |job.values| && k < |job.scope| && job.scope[k] in Ids(job.p.nodes) && RunNext(job, i, k, local).Ok?
    ensures RunNext(job, i, k, local).value.Keys == local.Keys + {job.scope[k]}
  {
  }

  /** An iteration's own outputs after `k` nodes: the iterator's and those nodes'. */
  lemma LocalKeys(job: Job, i: nat, k: nat, local: View)
    requires ValidJob(job) && i < |job.values| && k <= |job.scope| && IterationUpTo(job, i, k) == Ok(local)
    ensures local.Keys == {job.owner} + Elements(job.scope[..k])
  {
    var step := RunStep(job, i);
    var inv := (j: nat, view: View) => j <= |job.scope| && view.Keys == {job.owner} + Elements(job.scope[..j]);
    forall j: nat, view | j < k ensures StepKeeps(step, inv, j, view) {
      if step(j, view).Ok? {
        RunNextKeys(job, i, j, view);
        ElementsSnoc(job.scope, j);
      }
    }
    assert inv(0, Seed(job, i));
    ChainKeeps(step, Seed(job, i), k, inv);
  }

  lemma ElementsSnoc(s: seq<NodeId>, k: nat)
    requires k < |s|
    ensures Elements(s[..k + 1]) == Elements(s[..k]) + {s[k]}
  {
    assert s[..k + 1] == s[..k] + [s[k]];
  }

  /** Every member reads only outputs from outside, the iterator's, and earlier members'. */
  ghost predicate JobReady(job: Job)
    requires ValidJob(job)
  {
    forall k :: 0 <= k < |job.scope| ==> ReadsCovered(job, k)
  }

  ghost predicate ReadsCovered(job: Job, k: nat)
    requires ValidJob(job) && k < |job.scope|
  {
    Reads(job.p, job.scope[k]) <= job.base.Keys + {job.owner} + Elements(job.scope[..k])
  }

  /** In a ready job, no node of any iteration fails because something upstream has not run. */
  lemma ReadyIterationStep(job: Job, i: nat, k: nat, local: View)
    requires ValidJob(job) && JobReady(job) && i < |job.values| && k < |job.scope|
    requires IterationUpTo(job, i, k) == Ok(local)
    ensures RunNext(job, i, k, local).Err? ==>
            NotForLackOfOutput(job.base + local, RunNext(job, i, k, local).error.error.kind)
  {
    LocalKeys(job, i, k, local);
    assert ReadsCovered(job, k);
    PrepareWithAll(job.rt, job.p, job.scope[k], job.base + local, Some(Iteration(job.values[i], i)));
  }

  /** A member of the scope list is preceded there by the members that precede it in the order. */
  lemma {:induction false} RestrictKeepsOrder(order: seq<NodeId>, scope: set<NodeId>, a: nat, b: nat, j: nat)
    requires a < b < |order| && order[a] in scope && j < |Restrict(order, scope)|
    requires Restrict(order, scope)[j] == order[b]
    requires Distinct(order)
    ensures order[a] in Restrict(order, scope)[..j]
  {
    var n, front := order[|order| - 1], order[..|order| - 1];
    var r, q := Restrict(order, scope), Restrict(front, scope);
    if b == |order| - 1 {
      LastIsLast(order, scope, j);
      assert front[a] in front;
    } else {
      assert j < |q| by {
        if j == |q| {
          assert order[b] != n;
        }
      }
      DistinctFront(order);
      RestrictKeepsOrder(front, scope, a, b, j);
      assert r[..j] == q[..j];
    }
  }

  lemma DistinctFront(order: seq<NodeId>)
    requires order != [] && Distinct(order)
    ensures Distinct(order[..|order| - 1])
  {
    var front := order[..|order| - 1];
    assert forall x, y :: 0 <= x < y < |front| ==> front[x] == order[x] && front[y] == order[y];
  }

  lemma LastIsLast(order: seq<NodeId>, scope: set<NodeId>, j: nat)
    requires order != [] && Distinct(order) && j < |Restrict(order, scope)|
    requires Restrict(order, scope)[j] == order[|order| - 1]
    ensures Restrict(order, scope)[..j] == Restrict(order[..|order| - 1], scope)
  {
    var front := order[..|order| - 1];
    var q := Restrict(front, scope);
    assert order[|order| - 1] !in front;
    forall x | 0 <= x < |q| ensures q[x] != order[|order| - 1] {
      assert q[x] in q;
    }
  }

  /** What a member reads inside its scope comes before it in the scope. */
  lemma InnerReadsAreEarlier(env: Env, it: NodeId, j: nat, a: NodeId)
    requires ValidEnv(env) && j < |Restrict(env.order, Below(env, it))|
    requires a in Below(env, it) && a in Above(env, Restrict(env.order, Below(env, it))[j])
    ensures a in Restrict(env.order, Below(env, it))[..j]
  {
    var r := Restrict(env.order, Below(env, it));
    assert r[j] in r;
    var b :| 0 <= b < |env.order| && env.order[b] == r[j];
    AboveIsEarlier(env, b, a);
    var c := PositionOf(env.order[..b], a);
    RestrictKeepsOrder(env.order, Below(env, it), c, b, j);
  }

  lemma PositionOf(s: seq<NodeId>, n: NodeId) returns (c: nat)
    requires n in Elements(s)
    ensures c < |s| && s[c] == n
  {
    c :| 0 <= c < |s| && s[c] == n;
  }

  /** In fail-fast mode, a scope whose outside inputs come earlier gives a ready job. */
  lemma ReadyScopeReadyJob(env: Env, k: nat, s: Snapshot, plan: Plan)
    requires ValidEnv(env) && k < |env.order| && ScopeReady(env, k)
    requires Elements(env.order[..k]) <= s.outputs.Keys
    ensures var job := JobOf(env, s.outputs, env.order[k], plan); ValidJob(job) && JobReady(job)
  {
    var it := env.order[k];
    JobIsValid(env, s.outputs, it, plan);
    var job := JobOf(env, s.outputs, it, plan);
    forall j | 0 <= j < |job.scope| ensures ReadsCovered(job, j) {
      var m := job.scope[j];
      assert m in job.scope;
      ReadsAreAncestors(env.rt.registry, env.p, m);
      forall x | x in Reads(env.p, m) ensures x in job.base.Keys + {it} + Elements(job.scope[..j]) {
        if x in Below(env, it) {
          InnerReadsAreEarlier(env, it, j, x);
        }
      }
    }
  }

  /** Before an abort, every finished node of a fail-fast run has its outputs. */
  lemma FinishedHaveOutputs(env: Env, k: nat, s: Snapshot)
    requires FailFastOk(env, k, s, false)
    ensures Elements(env.order[..k]) <= s.outputs.Keys
  {
    forall n | n in Elements(env.order[..k]) ensures n in s.outputs {
      assert Is(s, n, SUCCEEDED);
    }
  }

  /** Fail-fast, with every outside input and reference target before the iterator: no node of any
      iteration fails for lack of an upstream output. */
  lemma ReadyScopeNeverLacksOutput(env: Env, k: nat, s: Snapshot, plan: Plan, i: nat, j: nat, local: View)
    requires ValidEnv(env) && k < |env.order| && ScopeReady(env, k) && FailFastOk(env, k, s, false)
    requires var job := JobOf(env, s.outputs, env.order[k], plan);
             ValidJob(job) && i < |job.values| && j < |job.scope| && IterationUpTo(job, i, j) == Ok(local)
    ensures var job := JobOf(env, s.outputs, env.order[k], plan);
            RunNext(job, i, j, local).Err? ==>
                NotForLackOfOutput(job.base + local, RunNext(job, i, j, local).error.error.kind)
  {
    FinishedHaveOutputs(env, k, s);
    ReadyScopeReadyJob(env, k, s, plan);
    ReadyIterationStep(JobOf(env, s.outputs, env.order[k], plan), i, j, local);
  }

  // ---------------------------------------------------------------- ports, over whole runs

  /** Iterators put their values on `out` and declare no other port. */
  ghost predicate IteratorsDeclareOut(reg: Registry) {
    forall t :: t in reg && reg[t].fanOut ==> reg[t].outputPorts <= {"out"}
  }

  /** Classes that produce what they declare. */
  ghost predicate HonestClasses(rt: Runtime, p: Pipeline) {
    ProducesDeclaredPorts(rt, p) && IteratorsDeclareOut(rt.registry)
  }

  /** Every node's outputs hold the ports its class declares. */
  ghost predicate PortsPresent(env: Env, view: View) {
    forall n :: n in view && n in Nodes(env) ==> DeclaredPorts(env, n) <= view[n].Keys
  }

  lemma OutputsHavePorts(env: Env, n: NodeId, view: View, iter: Option<Iteration>)
    requires n in Nodes(env) && ProducesDeclaredPorts(env.rt, env.p) && ExecuteNode(env.rt, env.p, n, view, iter).Ok?
    ensures DeclaredPorts(env, n) <= ExecuteNode(env.rt, env.p, n, view, iter).value.Keys
  {
    var ready := Prepare(env.rt, env.p, n, view, iter).value;
    assert env.rt.run(n, ready.0, ready.1, iter).Ok?;
  }

  /** Fan-in gives every member its declared ports. */
  lemma JoinsHavePorts(env: Env, s: Snapshot, it: NodeId, plan: Plan, tasks: seq<Task>)
    requires it in Nodes(env) && Below(env, it) <= Nodes(env) && |tasks| == |plan.values|
    requires PortsPresent(env, s.outputs)
    ensures PortsPresent(env, FanoutJoins(env, s, it, plan, tasks).outputs)
  {
    var members := {it} + Below(env, it);
    forall m | m in members ensures DeclaredPorts(env, m) <= AllOutputs(env, plan, tasks, members)[m].Keys {
      assert AllOutputs(env, plan, tasks, members)[m] == MemberOutputs(env, plan, tasks, m);
    }
  }

  lemma FanoutHasPorts(env: Env, s: Snapshot, it: NodeId, s': Snapshot, abort: bool)
    requires ValidEnv(env) && it in Nodes(env) && Below(env, it) <= Nodes(env) && PortsPresent(env, s.outputs)
    requires FanoutStep(env, s, it, s', abort)
    ensures PortsPresent(env, s'.outputs)
  {
    match PlanOf(env.rt, env.p, it, s.outputs)
    case Err(e) =>
    case Ok(plan) =>
      var job := JobOf(env, s.outputs, it, plan);
      var tasks :| TasksOk(job, tasks) && AllFinished(tasks) && (s', abort) == AfterFanout(env, s, it, plan, tasks);
      JoinsHavePorts(env, s, it, plan, tasks);
  }

  lemma PlainHasPorts(env: Env, s: Snapshot, n: NodeId)
    requires n in Nodes(env) && ProducesDeclaredPorts(env.rt, env.p) && PortsPresent(env, s.outputs)
    ensures PortsPresent(env, AfterNode(env, s, n).0.outputs)
  {
    if ExecuteNode(env.rt, env.p, n, s.outputs, None).Ok? {
      OutputsHavePorts(env, n, s.outputs, None);
    }
  }

  lemma PortsTurn(env: Env, n: NodeId, s: Snapshot, aborted: bool, s': Snapshot, abort: bool)
    requires ValidEnv(env) && n in Nodes(env) && Below(env, n) <= Nodes(env) && ProducesDeclaredPorts(env.rt, env.p)
    requires TurnStep(env, n, s, aborted, s', abort) && PortsPresent(env, s.outputs)
    ensures PortsPresent(env, s'.outputs)
  {
    if n !in s.results && !aborted {
      if FansOut(env, n) {
        FanoutHasPorts(env, s, n, s', abort);
      } else {
        PlainHasPorts(env, s, n);
      }
    }
  }

  ghost function PortsAt(env: Env): (nat, Moment) -> bool {
    (k: nat, m: Moment) => PortsPresent(env, m.state.outputs)
  }

  lemma PortsPreserved(env: Env, k: nat, m: Moment, m': Moment)
    requires ValidEnv(env) && ProducesDeclaredPorts(env.rt, env.p)
    ensures Preserves(Turns(env), PortsAt(env), k, m, m')
  {
    if Turns(env)(k, m, m') && PortsAt(env)(k, m) {
      TurnHas(env, k, m, m');
      PortsTurn(env, env.order[k], m.state, m.aborted, m'.state, m'.aborted);
    }
  }

  /** At every moment of every run the buffered outputs hold the declared ports. */
  lemma EveryMomentHasPorts(env: Env, trace: seq<Moment>, k: nat)
    requires ValidEnv(env) && IsEngineRun(env, trace) && k < |trace| && ProducesDeclaredPorts(env.rt, env.p)
    ensures PortsPresent(env, trace[k].state.outputs)
  {
    assert PortsAt(env)(0, Moment(NOTHING, false));
    forall j: nat, m, m' | j + 1 < |trace| ensures Preserves(Turns(env), PortsAt(env), j, m, m') {
      PortsPreserved(env, j, m, m');
    }
    LinkedKeeps(trace, Turns(env), PortsAt(env), k);
  }

  // ---------------------------------------------------------------- no iteration is starved

  /** The failure is the "input unavailable" branch or a reference to a node without output. */
  predicate Starved(kind: ErrorKind) {
    kind.Unavailable? || (kind.Unresolved? && kind.reason.NoOutputOf?)
  }

  lemma EdgesAvailable(env: Env, n: NodeId, view: View)
    requires Accepted(env.rt.registry, env.p) && n in Nodes(env) && PortsPresent(env, view)
    requires Reads(env.p, n) <= view.Keys
    ensures forall e :: e in InEdges(env.p.edges, n) ==> Available(view, e)
  {
    forall e | e in InEdges(env.p.edges, n) ensures Available(view, e) {
      assert e.src in Reads(env.p, n);
      assert EdgeFits(env.rt.registry, env.p, e);
      assert SpecOf(env.p, e.src) in env.p.nodes;
      assert e.srcPort in DeclaredPorts(env, e.src);
    }
  }

  lemma FedNodeIsNotStarved(env: Env, n: NodeId, view: View, iter: Option<Iteration>)
    requires Accepted(env.rt.registry, env.p) && n in Nodes(env) && PortsPresent(env, view)
    requires Reads(env.p, n) <= view.Keys
    ensures ExecuteNode(env.rt, env.p, n, view, iter).Err? ==>
            !Starved(ExecuteNode(env.rt, env.p, n, view, iter).error.kind)
  {
    EdgesAvailable(env, n, view);
    GathersAll(env.rt, env.p, n, view, iter);
    PrepareWithAll(env.rt, env.p, n, view, iter);
  }

  /** What an iteration has after `k` nodes: the outputs of the iterator and of those nodes, with their
      declared ports. */
  ghost predicate LocalOk(env: Env, job: Job, k: nat, local: View) {
    k <= |job.scope| && local.Keys == {job.owner} + Elements(job.scope[..k]) && PortsPresent(env, local)
  }

  ghost predicate JobOfEnv(env: Env, job: Job) {
    && job.rt == env.rt && job.p == env.p && FansOut(env, job.owner) && PortsPresent(env, job.base)
    && forall k :: 0 <= k < |job.scope| ==> job.scope[k] in Nodes(env)
  }

  lemma SeedOk(env: Env, job: Job, i: nat)
    requires JobOfEnv(env, job) && IteratorsDeclareOut(env.rt.registry) && i < |job.values|
    ensures LocalOk(env, job, 0, Seed(job, i))
  {
    assert job.scope[..0] == [];
    assert DeclaredPorts(env, job.owner) <= {"out"};
  }

  lemma LocalOkNext(env: Env, job: Job, i: nat, k: nat, local: View)
    requires JobOfEnv(env, job) && ProducesDeclaredPorts(env.rt, env.p) && i < |job.values| && k < |job.scope|
    requires LocalOk(env, job, k, local) && RunNext(job, i, k, local).Ok?
    ensures LocalOk(env, job, k + 1, RunNext(job, i, k, local).value)
  {
    RunNextKeys(job, i, k, local);
    ElementsSnoc(job.scope, k);
    OutputsHavePorts(env, job.scope[k], job.base + local, Some(Iteration(job.values[i], i)));
  }

  lemma NextIsNotStarved(env: Env, job: Job, i: nat, k: nat, local: View)
    requires Accepted(env.rt.registry, env.p) && JobOfEnv(env, job) && i < |job.values| && k < |job.scope|
    requires LocalOk(env, job, k, local)
    requires Reads(job.p, job.scope[k]) <= job.base.Keys + {job.owner} + Elements(job.scope[..k])
    ensures RunNext(job, i, k, local).Err? ==> !Starved(RunNext(job, i, k, local).error.error.kind)
  {
    assert PortsPresent(env, job.base + local);
    FedNodeIsNotStarved(env, job.scope[k], job.base + local, Some(Iteration(job.values[i], i)));
  }

  lemma IterationIsNotStarved(env: Env, job: Job, i: nat)
    requires Accepted(env.rt.registry, env.p) && HonestClasses(env.rt, env.p) && JobOfEnv(env, job)
    requires ValidJob(job) && JobReady(job) && i < |job.values|
    ensures IterationOf(job, i).Err? ==> !Starved(IterationOf(job, i).error.error.kind)
  {
    var step := RunStep(job, i);
    var inv := (k: nat, local: View) => LocalOk(env, job, k, local);
    var like := (f: Failure) => !Starved(f.error.kind);
    SeedOk(env, job, i);
    forall k: nat, local | k < |job.scope| ensures StepKeeps(step, inv, k, local) {
      if inv(k, local) && step(k, local).Ok? {
        LocalOkNext(env, job, i, k, local);
      }
    }
    forall k: nat, local | k < |job.scope| ensures FailsLikeUnder(step, inv, like, k, local) {
      if inv(k, local) {
        assert ReadsCovered(job, k);
        NextIsNotStarved(env, job, i, k, local);
      }
    }
    ChainErrorsUnder(step, Seed(job, i), |job.scope|, inv, like);
  }

  /** Every fail-fast run whose classes produce the ports they declare: when the turn of an iterator
      comes whose outside inputs and reference targets all come earlier, no iteration takes the
      "input unavailable" branch or lacks a reference's output. */
  lemma ReadyScopeIsNeverStarved(env: Env, trace: seq<Moment>, k: nat, plan: Plan, i: nat)
    requires ValidEnv(env) && env.failFast && HonestClasses(env.rt, env.p) && IsEngineRun(env, trace)
    requires k < |trace| && k < |env.order| && !trace[k].aborted && FansOut(env, env.order[k]) && ScopeReady(env, k)
    requires i < |plan.values|
    ensures var job := JobOf(env, trace[k].state.outputs, env.order[k], plan);
            ValidJob(job) && (IterationOf(job, i).Err? ==> !Starved(IterationOf(job, i).error.error.kind))
  {
    var s := trace[k].state;
    EveryMomentIsOk(env, trace, k);
    EveryMomentHasPorts(env, trace, k);
    FinishedHaveOutputs(env, k, s);
    ReadyScopeReadyJob(env, k, s, plan);
    IterationIsNotStarved(env, JobOf(env, s.outputs, env.order[k], plan), i);
  }

  // ---------------------------------------------------------------- scopes that are not ready

  /** A member of the scope of `order[k]` reads a node that is neither in the fan-out nor earlier. */
  ghost predicate LateRead(env: Env, k: nat, m: NodeId, x: NodeId)
    requires k < |env.order|
  {
    var it := env.order[k];
    && m in Below(env, it) && m in Nodes(env) && x in Reads(env.p, m)
    && x != it && x !in Below(env, it) && x !in Elements(env.order[..k])
  }

  lemma UnreadyReadsLate(env: Env, k: nat) returns (m: NodeId, x: NodeId)
    requires ValidEnv(env) && k < |env.order| && !ScopeReady(env, k)
    ensures LateRead(env, k, m, x)
  {
    var it := env.order[k];
    var y :| y in Below(env, it)
        && !(y in Nodes(env) && Reads(env.p, y) <= {it} + Below(env, it) + Elements(env.order[..k]));
    BelowNodes(env, it);
    m := y;
    x :| x in Reads(env.p, m) && x !in {it} + Below(env, it) + Elements(env.order[..k]);
  }

  lemma {:induction false} FailingReference(refs: seq<Ref>, ctx: Context, ref: Ref)
    requires ref in refs && ResolveReference(ref, ctx).Err?
    ensures FirstError(refs, ctx).Some?
  {
    if refs[0] != ref {
      FailingReference(refs[1..], ctx, ref);
    }
  }

  lemma MissingTargetFails(rt: Runtime, config: Value, ref: Ref, view: View, iter: Option<Iteration>)
    requires ref in FindRefs(config) && TargetOf(ref).Some? && TargetOf(ref).value !in view
    ensures ResolveConfig(config, ContextOf(rt, view, iter), rt.render).Err?
  {
    FailingReference(FindRefs(config), ContextOf(rt, view, iter), ref);
    ResolveFailsLikeFirstReference(config, ContextOf(rt, view, iter), rt.render);
  }

  lemma MissingSourceFails(p: Pipeline, e: Edge, view: View)
    requires e in p.edges && e.src !in view
    ensures Gather(InEdges(p.edges, e.dst), view).Err?
  {
    GatherSucceeds(InEdges(p.edges, e.dst), view);
    assert e in InEdges(p.edges, e.dst) && !Available(view, e);
  }

  /** A node cannot be prepared while something it reads has no outputs. */
  lemma MissingReadFails(rt: Runtime, p: Pipeline, n: NodeId, x: NodeId, view: View, iter: Option<Iteration>)
    requires n in Ids(p.nodes) && x in Reads(p, n) && x !in view
    ensures Prepare(rt, p, n, view, iter).Err?
  {
    if e :| e in p.edges && e.dst == n && e.src == x {
      MissingSourceFails(p, e, view);
    } else {
      var ref :| ref in FindRefs(SpecOf(p, n).config) && TargetOf(ref) == Some(x);
      MissingTargetFails(rt, SpecOf(p, n).config, ref, view, iter);
    }
  }

  lemma RunNextLacks(job: Job, i: nat, k: nat, local: View, x: NodeId)
    requires i < |job.values| && k < |job.scope| && job.scope[k] in Ids(job.p.nodes)
    requires x in Reads(job.p, job.scope[k]) && x !in job.base && x !in local
    ensures RunNext(job, i, k, local).Err?
  {
    MissingReadFails(job.rt, job.p, job.scope[k], x, job.base + local, Some(Iteration(job.values[i], i)));
  }

  /** No iteration gets past a member that reads what no one provides. */
  lemma LateReadStops(job: Job, i: nat, pos: nat, x: NodeId)
    requires ValidJob(job) && i < |job.values| && pos < |job.scope| && x in Reads(job.p, job.scope[pos])
    requires x !in job.base && x != job.owner && x !in job.scope
    ensures IterationOf(job, i).Err?
  {
    var step := RunStep(job, i);
    var inv := (j: nat, view: View) => j <= pos && x !in view;
    forall j: nat, view | j < |job.scope| ensures StepKeeps(step, inv, j, view) {
      if inv(j, view) && step(j, view).Ok? {
        RunNextKeys(job, i, j, view);
        if j == pos {
          RunNextLacks(job, i, pos, view, x);
        }
      }
    }
    ChainKeeps(step, Seed(job, i), |job.scope|, inv);
  }

  /** A late source was not reached inside another scope either. */
  lemma LateSourceUnreached(env: Env, k: nat, m: NodeId, x: NodeId)
    requires ValidEnv(env) && k < |env.order| && FansOut(env, env.order[k]) && LateRead(env, k, m, x)
    ensures !Reached(env, k, x)
  {
    var it := env.order[k];
    ReadsAreAncestors(env.rt.registry, env.p, m);
    BelowAbove(env, x, m);
    forall other | other in Elements(env.order[..k]) && FansOut(env, other) ensures x !in Below(env, other) {
      var i :| 0 <= i < k && env.order[..k][i] == other;
      assert env.order[i] != env.order[k];
      ScopesApart(env, other, it);
      if x in Below(env, other) {
        BelowTransitive(env, other, x);
      }
    }
  }

  /** Every fail-fast run, with something read from outside that does not come before the iterator:
      every iteration fails, whatever the nodes do. */
  lemma UnreadyScopeFailsEveryIteration(env: Env, trace: seq<Moment>, k: nat, plan: Plan, i: nat)
    requires ValidEnv(env) && env.failFast && IsEngineRun(env, trace)
    requires k < |trace| && k < |env.order| && !trace[k].aborted && FansOut(env, env.order[k]) && !ScopeReady(env, k)
    requires i < |plan.values|
    ensures var job := JobOf(env, trace[k].state.outputs, env.order[k], plan); ValidJob(job) && IterationOf(job, i).Err?
  {
    EveryMomentIsOk(env, trace, k);
    UnreadyScopeFails(env, k, trace[k].state, plan, i);
  }

  lemma UnreadyScopeFails(env: Env, k: nat, s: Snapshot, plan: Plan, i: nat)
    requires ValidEnv(env) && k < |env.order| && FansOut(env, env.order[k]) && !ScopeReady(env, k)
    requires FailFastOk(env, k, s, false) && i < |plan.values|
    ensures var job := JobOf(env, s.outputs, env.order[k], plan); ValidJob(job) && IterationOf(job, i).Err?
  {
    var m, x := UnreadyReadsLate(env, k);
    JobIsValid(env, s.outputs, env.order[k], plan);
    LateSourceUnreached(env, k, m, x);
    UnreachedHasNoOutput(env, k, s, x);
    var job := JobOf(env, s.outputs, env.order[k], plan);
    assert m in job.scope && x !in job.scope;
    var pos :| 0 <= pos < |job.scope| && job.scope[pos] == m;
    LateReadStops(job, i, pos, x);
  }

  lemma UnreachedHasNoOutput(env: Env, k: nat, s: Snapshot, n: NodeId)
    requires FailFastOk(env, k, s, false) && !Reached(env, k, n)
    ensures n !in s.outputs
  {
    assert n !in ReachedSet(env, k);
    assert n !in s.results;
  }
}
