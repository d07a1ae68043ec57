/** The meaning of an iterator-free pipeline: each node as a function of its ancestors' meanings,
    with no order of execution in it. The engine's run is this meaning. */
module Meaning {
  import opened Wrappers
  import opened Chains
  import opened Graphs
  import opened Topo
  import opened References
  import opened Pipelines
  import opened NodeExecution
  import opened EngineModel
  import opened FailFast
  import opened ContinueOnError

  datatype NodeMeaning = Gives(outputs: Outputs) | Fails(error: NodeError) | Skips

  /** A meaning for every node. */
  type Table = map<NodeId, NodeMeaning>

  ghost predicate IsDag(p: Pipeline) {
    !Cyclic(p.edges) && Endpoints(p.edges) <= Elements(Ids(p.nodes))
  }

  lemma AncestorsOfDag(p: Pipeline, n: NodeId)
    requires IsDag(p)
    ensures forall a :: a in Ancestors(p.edges, n) ==>
              a in Ids(p.nodes) && Ancestors(p.edges, a) < Ancestors(p.edges, n)
  {
    forall a | a in Ancestors(p.edges, n) ensures a in Ids(p.nodes) && Ancestors(p.edges, a) < Ancestors(p.edges, n) {
      AncestorsShrink(p.edges, a, n);
    }
  }

  // ---------------------------------------------------------------- the defining equation

  ghost predicate FailsAbove(p: Pipeline, t: Table, n: NodeId) {
    exists a :: a in Ancestors(p.edges, n) && a in t && t[a].Fails?
  }

  /** What a node's ancestors give. */
  ghost function ViewOf(p: Pipeline, t: Table, n: NodeId): View {
    map a | a in Ancestors(p.edges, n) && a in t && t[a].Gives? :: t[a].outputs
  }

  function Outcome(r: Result<Outputs, NodeError>): NodeMeaning {
    match r case Ok(outputs) => Gives(outputs) case Err(e) => Fails(e)
  }

  /** A node is skipped if some ancestor fails; otherwise it is its own function of what its
      ancestors give. */
  ghost function MeaningAt(rt: Runtime, p: Pipeline, t: Table, n: NodeId): NodeMeaning
    requires n in Ids(p.nodes)
  {
    if FailsAbove(p, t, n) then Skips else Outcome(ExecuteNode(rt, p, n, ViewOf(p, t, n), None))
  }

  ghost predicate SolvedAt(rt: Runtime, p: Pipeline, t: Table, n: NodeId) {
    n in Ids(p.nodes) && n in t && t[n] == MeaningAt(rt, p, t, n)
  }

  /** The table satisfies the equation at every node. */
  ghost predicate Solves(rt: Runtime, p: Pipeline, t: Table) {
    t.Keys == Elements(Ids(p.nodes)) && forall n :: n in t ==> SolvedAt(rt, p, t, n)
  }

  /** The meaning of one node, by recursion over its ancestors. */
  ghost function MeaningOf(rt: Runtime, p: Pipeline, n: NodeId): NodeMeaning
    requires IsDag(p) && n in Ids(p.nodes)
    decreases Ancestors(p.edges, n)
  {
    AncestorsOfDag(p, n);
    MeaningAt(rt, p, map a | a in Ancestors(p.edges, n) :: MeaningOf(rt, p, a), n)
  }

  ghost function MeaningTable(rt: Runtime, p: Pipeline): Table
    requires IsDag(p)
  {
    map n | n in Elements(Ids(p.nodes)) :: MeaningOf(rt, p, n)
  }

  /** The equation only looks at ancestors. */
  lemma MeaningAtFrame(rt: Runtime, p: Pipeline, t: Table, u: Table, n: NodeId)
    requires n in Ids(p.nodes)
    requires forall a :: a in Ancestors(p.edges, n) ==> a in t && a in u && t[a] == u[a]
    ensures MeaningAt(rt, p, t, n) == MeaningAt(rt, p, u, n)
  {
    assert ViewOf(p, t, n) == ViewOf(p, u, n);
    assert FailsAbove(p, t, n) <==> FailsAbove(p, u, n);
  }

  lemma TableSolvesAt(rt: Runtime, p: Pipeline, t: Table, n: NodeId)
    requires IsDag(p) && n in Ids(p.nodes)
    requires forall a :: a in Ancestors(p.edges, n) ==> a in Ids(p.nodes) && a in t && t[a] == MeaningOf(rt, p, a)
    ensures MeaningOf(rt, p, n) == MeaningAt(rt, p, t, n)
  {
    AncestorsOfDag(p, n);
    var u := map a | a in Ancestors(p.edges, n) :: MeaningOf(rt, p, a);
    assert MeaningOf(rt, p, n) == MeaningAt(rt, p, u, n);
    MeaningAtFrame(rt, p, u, t, n);
  }

  lemma TableSolves(rt: Runtime, p: Pipeline)
    requires IsDag(p)
    ensures Solves(rt, p, MeaningTable(rt, p))
  {
    var t := MeaningTable(rt, p);
    forall n | n in Ids(p.nodes) ensures SolvedAt(rt, p, t, n) {
      AncestorsOfDag(p, n);
      TableSolvesAt(rt, p, t, n);
    }
  }

  /** The equation has one solution: the meaning is well defined. */
  lemma {:induction false} SolutionIsUnique(rt: Runtime, p: Pipeline, t: Table, u: Table, n: NodeId)
    requires IsDag(p) && Solves(rt, p, t) && Solves(rt, p, u) && n in Ids(p.nodes)
    ensures n in t && n in u && t[n] == u[n]
    decreases Ancestors(p.edges, n)
  {
    AncestorsOfDag(p, n);
    forall a | a in Ancestors(p.edges, n) ensures a in t && a in u && t[a] == u[a] {
      SolutionIsUnique(rt, p, t, u, a);
    }
    assert n in t && n in u;
    assert SolvedAt(rt, p, t, n) && SolvedAt(rt, p, u, n);
    MeaningAtFrame(rt, p, t, u, n);
  }

  lemma AncestorsInherit(p: Pipeline, t: Table, n: NodeId, a: NodeId)
    requires !FailsAbove(p, t, n) && a in Ancestors(p.edges, n)
    ensures !FailsAbove(p, t, a)
  {
    forall b | b in Ancestors(p.edges, a) ensures b in Ancestors(p.edges, n) {
      ReachesTransitive(p.edges, b, a, n);
    }
  }

  lemma OutcomeIsNotSkips(rt: Runtime, p: Pipeline, t: Table, n: NodeId)
    requires SolvedAt(rt, p, t, n) && !FailsAbove(p, t, n)
    ensures t[n] != Skips
  {
  }

  /** Without a failing ancestor all ancestors give outputs. */
  lemma AncestorsGive(rt: Runtime, p: Pipeline, t: Table, n: NodeId, a: NodeId)
    requires IsDag(p) && Solves(rt, p, t) && !FailsAbove(p, t, n) && a in Ancestors(p.edges, n)
    ensures a in t && t[a].Gives? && a in ViewOf(p, t, n) && ViewOf(p, t, n)[a] == t[a].outputs
  {
    AncestorsOfDag(p, n);
    assert a in t;
    AncestorsInherit(p, t, n, a);
    OutcomeIsNotSkips(rt, p, t, a);
  }

  // ---------------------------------------------------------------- the run follows the table

  function ResultOf(rt: Runtime, m: NodeMeaning): NodeResult {
    match m
    case Gives(outputs) => NodeResult(SUCCEEDED, Some(|Primary(rt, outputs)|), None, None)
    case Fails(e) => FailedResult(e)
    case Skips => SKIPPED_RESULT
  }

  lemma EnvIsDag(env: Env)
    requires ValidEnv(env)
    ensures IsDag(env.p)
  {
    AllEdgesKnown(env);
  }

  /** Results so far are meanings, and the outputs are what the finished nodes give. */
  ghost predicate Means(rt: Runtime, t: Table, done: set<NodeId>, s: Snapshot) {
    && (forall n :: n in s.results ==> n in t && s.results[n] == ResultOf(rt, t[n]))
    && (forall n :: n in s.outputs ==> n in t && t[n] == Gives(s.outputs[n]))
    && (forall n :: n in done && n in t && t[n].Gives? ==> n in s.outputs)
  }

  lemma FreshNodeReads(env: Env, t: Table, done: set<NodeId>, s: Snapshot, n: NodeId)
    requires IsDag(env.p) && Solves(env.rt, env.p, t) && Means(env.rt, t, done, s)
    requires Above(env, n) <= done <= s.results.Keys && !HasFailedAbove(env, s, n)
    ensures !FailsAbove(env.p, t, n)
    ensures Agree(s.outputs, ViewOf(env.p, t, n), Above(env, n))
  {
    forall a | a in Ancestors(env.p.edges, n) ensures a in t && !t[a].Fails? {
      assert a in Above(env, n);
      assert !Is(s, a, FAILED);
    }
    forall a | a in Above(env, n)
      ensures a in s.outputs && a in ViewOf(env.p, t, n) && s.outputs[a] == ViewOf(env.p, t, n)[a] {
      AncestorsGive(env.rt, env.p, t, n, a);
    }
  }

  /** When its turn comes without a result, running a node on the buffered outputs is its meaning. */
  lemma FreshNodeMeans(env: Env, t: Table, done: set<NodeId>, s: Snapshot, n: NodeId)
    requires IsDag(env.p) && Solves(env.rt, env.p, t) && Means(env.rt, t, done, s)
    requires n in Nodes(env) && Reads(env.p, n) <= Above(env, n)
    requires Above(env, n) <= done <= s.results.Keys && !HasFailedAbove(env, s, n)
    ensures n in t && t[n] == Outcome(ExecuteNode(env.rt, env.p, n, s.outputs, None))
  {
    FreshNodeReads(env, t, done, s, n);
    ExecuteFrame(env.rt, env.p, n, s.outputs, ViewOf(env.p, t, n), None);
    assert n in t;
    assert SolvedAt(env.rt, env.p, t, n);
  }

  lemma BelowFailureSkips(env: Env, t: Table, n: NodeId, m: NodeId)
    requires Solves(env.rt, env.p, t) && n in t && t[n].Fails? && m in Below(env, n) && m in t
    ensures t[m] == Skips
  {
    BelowAbove(env, n, m);
    assert n in Ancestors(env.p.edges, m);
    assert SolvedAt(env.rt, env.p, t, m);
    assert FailsAbove(env.p, t, m);
  }

  lemma MeansAfterSuccess(env: Env, t: Table, done: set<NodeId>, s: Snapshot, n: NodeId, outputs: Outputs)
    requires Means(env.rt, t, done, s) && n in t && t[n] == Gives(outputs)
    ensures MeansOne(env.rt, t, done, s, n, NodeSucceeds(env, s, n, outputs))
  {
  }

  lemma MeansAfterFailure(env: Env, t: Table, done: set<NodeId>, s: Snapshot, n: NodeId, e: NodeError)
    requires !env.failFast && Means(env.rt, t, done, s) && n in t && t[n] == Fails(e)
    requires forall m :: m in Below(env, n) ==> m in t && t[m] == Skips
    ensures MeansOne(env.rt, t, done, s, n, NodeFails(env, s, n, e))
  {
  }

  /** The error a node adds to the run. */
  function NewErrors(t: Table, n: NodeId): seq<NodeError> {
    if n in t && t[n].Fails? then [t[n].error] else []
  }

  /** The errors of the failing nodes, in the order of a list. */
  function ErrorsAlong(t: Table, nodes: seq<NodeId>): seq<NodeError> {
    if nodes == [] then [] else ErrorsAlong(t, nodes[..|nodes| - 1]) + NewErrors(t, nodes[|nodes| - 1])
  }

  /** A node with a result before its turn is skipped. */
  lemma EarlyMeansSkipped(env: Env, t: Table, done: set<NodeId>, s: Snapshot, n: NodeId)
    requires NoIterators(env) && EarlyResults(env, done, s) && Means(env.rt, t, done, s) && n in s.results && n !in done
    ensures n in t && t[n] == Skips
  {
    assert Is(s, n, SKIPPED);
  }

  lemma MeansFresh(env: Env, t: Table, done: set<NodeId>, s: Snapshot, n: NodeId, r: Result<Outputs, NodeError>)
    requires !env.failFast && Solves(env.rt, env.p, t) && Means(env.rt, t, done, s) && Below(env, n) <= t.Keys
    requires n in t && t[n] == Outcome(r)
    ensures MeansOne(env.rt, t, done, s, n, Recorded(env, s, n, r))
  {
    match r
    case Ok(outputs) => MeansAfterSuccess(env, t, done, s, n, outputs);
    case Err(e) =>
      forall m | m in Below(env, n) ensures m in t && t[m] == Skips {
        BelowFailureSkips(env, t, n, m);
      }
      MeansAfterFailure(env, t, done, s, n, e);
  }

  lemma SeqStepPlain(env: Env, s: Snapshot, n: NodeId)
    requires ValidEnv(env) && n in Nodes(env) && !FansOut(env, n)
    ensures SeqStep(env, s, n) == if n in s.results then s else AfterNode(env, s, n).0
  {
  }

  /** A node's own turn. */
  lemma MeansOwnTurn(env: Env, t: Table, done: set<NodeId>, s: Snapshot, n: NodeId)
    requires IsDag(env.p) && !env.failFast && Solves(env.rt, env.p, t)
    requires n in Nodes(env) && Reads(env.p, n) <= Above(env, n)
    requires Front(env, done, n) && ContinueOk(env, done, s) && Means(env.rt, t, done, s) && n !in s.results
    ensures MeansOne(env.rt, t, done, s, n, AfterNode(env, s, n).0)
  {
    FreshNode(env, done, s, n);
    FreshNodeMeans(env, t, done, s, n);
    MeansFresh(env, t, done, s, n, ExecuteNode(env.rt, env.p, n, s.outputs, None));
  }

  /** One more node has its meaning. */
  ghost predicate MeansOne(rt: Runtime, t: Table, done: set<NodeId>, s: Snapshot, n: NodeId, s': Snapshot) {
    Means(rt, t, done + {n}, s') && s'.errors == s.errors + NewErrors(t, n)
  }

  /** A node with a result already. */
  lemma MeansEarlier(env: Env, t: Table, done: set<NodeId>, s: Snapshot, n: NodeId)
    requires NoIterators(env) && EarlyResults(env, done, s) && Means(env.rt, t, done, s) && n in s.results && n !in done
    ensures MeansOne(env.rt, t, done, s, n, s)
  {
    EarlyMeansSkipped(env, t, done, s, n);
  }

  lemma MeansTurn(env: Env, t: Table, done: set<NodeId>, s: Snapshot, n: NodeId, s': Snapshot)
    requires IsDag(env.p) && !env.failFast && NoIterators(env) && Solves(env.rt, env.p, t)
    requires n in Nodes(env) && Reads(env.p, n) <= Above(env, n)
    requires Front(env, done, n) && ContinueOk(env, done, s) && Means(env.rt, t, done, s)
    requires s' == if n in s.results then s else AfterNode(env, s, n).0
    ensures MeansOne(env.rt, t, done, s, n, s')
  {
    if n in s.results {
      MeansEarlier(env, t, done, s, n);
    } else {
      MeansOwnTurn(env, t, done, s, n);
    }
  }

  lemma ErrorsAlongStep(t: Table, order: seq<NodeId>, k: nat)
    requires k < |order|
    ensures ErrorsAlong(t, order[..k + 1]) == ErrorsAlong(t, order[..k]) + NewErrors(t, order[k])
  {
    assert order[..k + 1][..k] == order[..k];
  }

  /** What a continue-on-error run without iterators has computed after `k` nodes. */
  ghost predicate RunMeans(env: Env, t: Table, k: nat, s: Snapshot) {
    && k <= |env.order|
    && Elements(env.order[..k]) <= s.results.Keys <= Nodes(env)
    && Means(env.rt, t, Elements(env.order[..k]), s)
    && s.errors == ErrorsAlong(t, env.order[..k])
  }

  /** With the run's own invariant. */
  ghost predicate RunMeansSoFar(env: Env, t: Table, k: nat, s: Snapshot) {
    RunMeans(env, t, k, s) && ContinueOk(env, Elements(env.order[..k]), s)
  }

  /** A table for a run to follow. */
  ghost predicate Followed(env: Env, t: Table) {
    IsDag(env.p) && !env.failFast && NoIterators(env) && Solves(env.rt, env.p, t)
  }

  lemma RunMeansNext(env: Env, t: Table, k: nat, s: Snapshot)
    requires ValidEnv(env) && Followed(env, t)
    requires k < |env.order| && env.order[k] in Nodes(env) && RunMeansSoFar(env, t, k, s)
    ensures RunMeansSoFar(env, t, k + 1, SeqStep(env, s, env.order[k]))
  {
    FrontOf(env, k);
    ReadsAreAncestors(env.rt.registry, env.p, env.order[k]);
    SeqStepAt(env, k, s);
    SeqStepPlain(env, s, env.order[k]);
    MeansTurn(env, t, Elements(env.order[..k]), s, env.order[k], SeqStep(env, s, env.order[k]));
    PrefixGrows(env, k);
    ErrorsAlongStep(t, env.order, k);
  }

  lemma NothingMeans(env: Env, t: Table)
    ensures RunMeansSoFar(env, t, 0, NOTHING)
  {
    assert Elements(env.order[..0]) == {};
    NothingOk(env);
  }

  lemma TurnKeepsMeaning(env: Env, t: Table, k: nat, s: Snapshot)
    requires ValidEnv(env) && Followed(env, t) && k < |env.order|
    ensures Keeps(SeqTurns(env), (j: nat, s: Snapshot) => RunMeansSoFar(env, t, j, s), k, s)
  {
    OrderCovers(env);
    if RunMeansSoFar(env, t, k, s) {
      RunMeansNext(env, t, k, s);
    }
  }

  lemma RunMeansUpTo(env: Env, t: Table, k: nat)
    requires ValidEnv(env) && Followed(env, t) && k <= |env.order|
    ensures RunMeans(env, t, k, SeqRun(env, k))
  {
    var step := SeqTurns(env);
    var inv := (j: nat, s: Snapshot) => RunMeansSoFar(env, t, j, s);
    forall j: nat, s | j < k ensures Keeps(step, inv, j, s) {
      TurnKeepsMeaning(env, t, j, s);
    }
    NothingMeans(env, t);
    IterateKeeps(step, NOTHING, k, inv);
  }

  /** The results and outputs that a table prescribes. */
  ghost predicate Realises(env: Env, t: Table, s: Snapshot) {
    && s.results == (map n | n in t :: ResultOf(env.rt, t[n]))
    && s.outputs == (map n | n in t && t[n].Gives? :: t[n].outputs)
    && s.errors == ErrorsAlong(t, env.order)
  }

  lemma MeansAll(env: Env, t: Table, s: Snapshot)
    requires Means(env.rt, t, t.Keys, s) && s.results.Keys == t.Keys && s.errors == ErrorsAlong(t, env.order)
    ensures Realises(env, t, s)
  {
  }

  lemma RunMeansAll(env: Env, t: Table, s: Snapshot)
    requires RunMeans(env, t, |env.order|, s) && t.Keys == Nodes(env) == Elements(env.order)
    ensures Realises(env, t, s)
  {
    assert env.order[..|env.order|] == env.order;
    MeansAll(env, t, s);
  }

  /** The finished run is the meaning: every node's result and outputs are its meaning's, and the
      errors come in execution order. */
  lemma RunIsMeaning(env: Env, t: Table)
    requires ValidEnv(env) && IsDag(env.p) && !env.failFast && NoIterators(env) && Solves(env.rt, env.p, t)
    ensures Realises(env, t, SeqRun(env, |env.order|))
  {
    RunMeansUpTo(env, t, |env.order|);
    OrderCovers(env);
    RunMeansAll(env, t, SeqRun(env, |env.order|));
  }

  /** Results and outputs do not depend on which topological order the engine follows. */
  lemma OrderDoesNotMatter(env: Env, order: seq<NodeId>)
    requires ValidEnv(env) && !env.failFast && NoIterators(env)
    requires IsTopoOrder(Ids(env.p.nodes), env.p.edges, order)
    ensures ValidEnv(env.(order := order))
    ensures SeqRun(env, |env.order|).results == SeqRun(env.(order := order), |order|).results
    ensures SeqRun(env, |env.order|).outputs == SeqRun(env.(order := order), |order|).outputs
  {
    var other := env.(order := order);
    EnvIsDag(env);
    assert forall n :: FansOut(other, n) <==> FansOut(env, n);
    TableSolves(env.rt, env.p);
    RunIsMeaning(env, MeaningTable(env.rt, env.p));
    RunIsMeaning(other, MeaningTable(env.rt, env.p));
  }

  // ---------------------------------------------------------------- inputs are always available

  /** The error is not that an upstream node has not run: a missing input is a port that the
      upstream node did not produce, and no reference lacks its target's output. */
  ghost predicate InputsHadRun(t: Table, e: NodeError) {
    && (e.kind.Unavailable? ==> e.kind.src in t && t[e.kind.src].Gives? && e.kind.port !in t[e.kind.src].outputs)
    && (e.kind.Unresolved? ==> !e.kind.reason.NoOutputOf?)
  }

  /** In an accepted pipeline no node fails because something upstream has not run. */
  lemma NothingIsUnavailable(rt: Runtime, p: Pipeline, t: Table, n: NodeId)
    requires Accepted(rt.registry, p) && IdsNonEmpty(p) && IsDag(p) && Solves(rt, p, t) && n in t
    ensures t[n].Fails? ==> InputsHadRun(t, t[n].error)
  {
    assert SolvedAt(rt, p, t, n);
    ReadsAreAncestors(rt.registry, p, n);
    if !FailsAbove(p, t, n) {
      ReadersFail(rt, p, t, n);
    }
  }

  lemma ReadersFail(rt: Runtime, p: Pipeline, t: Table, n: NodeId)
    requires n in Ids(p.nodes) && Reads(p, n) <= Ancestors(p.edges, n)
    requires IsDag(p) && Solves(rt, p, t) && !FailsAbove(p, t, n)
    ensures var r := ExecuteNode(rt, p, n, ViewOf(p, t, n), None); r.Err? ==> InputsHadRun(t, r.error)
  {
    var view := ViewOf(p, t, n);
    forall a | a in Reads(p, n) ensures a in view && a in t && t[a] == Gives(view[a]) {
      AncestorsGive(rt, p, t, n, a);
    }
    PrepareWithAll(rt, p, n, view, None);
  }

  /** A failure that no missing upstream output explains. */
  ghost predicate NotForLackOfOutput(view: View, kind: ErrorKind) {
    && (kind.Unavailable? ==> kind.src in view && kind.port !in view[kind.src])
    && (kind.Unresolved? ==> !kind.reason.NoOutputOf?)
  }

  /** Preparation with everything a node reads present. */
  lemma PrepareWithAll(rt: Runtime, p: Pipeline, n: NodeId, view: View, iter: Option<Iteration>)
    requires n in Ids(p.nodes) && Reads(p, n) <= view.Keys
    ensures Prepare(rt, p, n, view, iter).Err? ==> NotForLackOfOutput(view, Prepare(rt, p, n, view, iter).error)
  {
    var config, ctx := SpecOf(p, n).config, ContextOf(rt, view, iter);
    MissingInput(InEdges(p.edges, n), view);
    NoMissingTarget(FindRefs(config), ctx);
    ResolveFailsLikeFirstReference(config, ctx, rt.render);
  }

  lemma {:induction false} MissingInput(into: seq<Edge>, view: View)
    requires forall e :: e in into ==> e.src in view
    ensures Gather(into, view).Err? ==>
              var k := Gather(into, view).error;
              k.Unavailable? && (exists e :: e in into && e.src == k.src) && k.src in view && k.port !in view[k.src]
  {
    if into != [] {
      var front, e := into[..|into| - 1], into[|into| - 1];
      assert into == front + [e];
      MissingInput(front, view);
      assert e in into;
      if Gather(front, view).Err? {
        var f :| f in front && f.src == Gather(front, view).error.src;
        assert f in into;
      }
    }
  }

  lemma {:induction false} NoMissingTarget(refs: seq<Ref>, ctx: Context)
    requires forall ref :: ref in refs && TargetOf(ref).Some? ==> TargetOf(ref).value in ctx.upstream
    ensures FirstError(refs, ctx).Some? ==> !FirstError(refs, ctx).value.NoOutputOf?
  {
    if refs != [] {
      assert refs[0] in refs;
      NoMissingTarget(refs[1..], ctx);
    }
  }

  // ---------------------------------------------------------------- with honest node classes

  /** Classes produce all the ports they declare. */
  ghost predicate ProducesDeclaredPorts(rt: Runtime, p: Pipeline) {
    forall n, config, inputs, iter ::
        n in Ids(p.nodes) && SpecOf(p, n).typeName in rt.registry && rt.run(n, config, inputs, iter).Ok? ==>
      rt.registry[SpecOf(p, n).typeName].outputPorts <= rt.run(n, config, inputs, iter).value.Keys
  }

  /** Then the "input unavailable" branch is unreachable. */
  lemma UnavailableIsUnreachable(rt: Runtime, p: Pipeline, t: Table, n: NodeId)
    requires Accepted(rt.registry, p) && IsDag(p) && Solves(rt, p, t) && n in t
    requires ProducesDeclaredPorts(rt, p)
    ensures t[n].Fails? ==> !t[n].error.kind.Unavailable?
  {
    assert SolvedAt(rt, p, t, n);
    if !FailsAbove(p, t, n) {
      forall e | e in InEdges(p.edges, n) ensures Available(ViewOf(p, t, n), e) {
        EdgeAvailable(rt, p, t, e);
      }
      GathersAll(rt, p, n, ViewOf(p, t, n), None);
    }
  }

  lemma GathersAll(rt: Runtime, p: Pipeline, n: NodeId, view: View, iter: Option<Iteration>)
    requires n in Ids(p.nodes) && forall e :: e in InEdges(p.edges, n) ==> Available(view, e)
    ensures var r := ExecuteNode(rt, p, n, view, iter); r.Err? ==> !r.error.kind.Unavailable?
  {
    GatherSucceeds(InEdges(p.edges, n), view);
  }

  lemma EdgeAvailable(rt: Runtime, p: Pipeline, t: Table, e: Edge)
    requires Accepted(rt.registry, p) && IsDag(p) && Solves(rt, p, t) && ProducesDeclaredPorts(rt, p)
    requires e in p.edges && !FailsAbove(p, t, e.dst)
    ensures Available(ViewOf(p, t, e.dst), e)
  {
    SourceIsAncestor(p, e);
    AncestorsGive(rt, p, t, e.dst, e.src);
    DeclaredPortGiven(rt, p, t, e);
  }

  lemma DeclaredPortGiven(rt: Runtime, p: Pipeline, t: Table, e: Edge)
    requires Accepted(rt.registry, p) && Solves(rt, p, t) && ProducesDeclaredPorts(rt, p)
    requires e in p.edges && e.src in t && t[e.src].Gives?
    ensures e.srcPort in t[e.src].outputs
  {
    assert EdgeFits(rt.registry, p, e);
    assert SolvedAt(rt, p, t, e.src);
    assert SpecOf(p, e.src) in p.nodes;
    var ready := Prepare(rt, p, e.src, ViewOf(p, t, e.src), None).value;
    assert rt.run(e.src, ready.0, ready.1, None).Ok?;
  }
}
