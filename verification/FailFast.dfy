/** What holds after every node of a fail-fast run, for every interleaving inside its fan-outs. */
module FailFast {
  import opened Graphs
  import opened NodeExecution
  import opened Fanout
  import opened EngineModel

  ghost predicate Is(s: Snapshot, n: NodeId, status: Status) {
    n in s.results && s.results[n].status == status
  }

  ghost predicate SomeNodeFailed(s: Snapshot) {
    exists n :: Is(s, n, FAILED)
  }

  ghost predicate ErrorRecorded(s: Snapshot, n: NodeId) {
    n in s.results && s.results[n].error.Some? && s.results[n].error.value in s.errors
    && s.results[n].error.value.node == n
  }

  /** The run has errors exactly when a node failed, and every failed node's error is recorded. */
  ghost predicate ErrorsMatch(s: Snapshot) {
    && (s.errors != [] <==> SomeNodeFailed(s))
    && forall n :: Is(s, n, FAILED) ==> ErrorRecorded(s, n)
  }

  ghost predicate OneFailed(s: Snapshot) {
    exists f :: Is(s, f, FAILED) && forall n :: Is(s, n, FAILED) ==> n == f
  }

  /** The outputs buffered are those of the succeeded nodes. */
  ghost predicate OutputsOfSucceeded(s: Snapshot) {
    forall n :: n in s.outputs <==> Is(s, n, SUCCEEDED)
  }

  /** `done` have results and only `nodes` have; before an abort everything with a result is in
      `reach` and succeeded; after it exactly one node failed. */
  ghost predicate Shape(done: set<NodeId>, nodes: set<NodeId>, reach: set<NodeId>, s: Snapshot, abort: bool) {
    && done <= s.results.Keys <= nodes
    && ErrorsMatch(s)
    && OutputsOfSucceeded(s)
    && (!abort ==> s.errors == [] && s.results.Keys <= reach && forall n :: n in s.results ==> Is(s, n, SUCCEEDED))
    && (abort ==> OneFailed(s))
  }

  // ---------------------------------------------------------------- steps on snapshots

  lemma ShapeSkip(done: set<NodeId>, nodes: set<NodeId>, reach: set<NodeId>, s: Snapshot, n: NodeId)
    requires Shape(done, nodes, reach, s, true) && n in nodes && n !in s.results
    ensures Shape(done + {n}, nodes, reach, s.(results := SkipAll(s.results, {n})), true)
  {
    var s' := s.(results := SkipAll(s.results, {n}));
    forall m ensures Is(s', m, FAILED) <==> Is(s, m, FAILED) {}
    forall m ensures Is(s', m, SUCCEEDED) <==> Is(s, m, SUCCEEDED) {}
    forall m | Is(s', m, FAILED) ensures ErrorRecorded(s', m) {
      assert ErrorRecorded(s, m);
    }
  }

  /** Some nodes succeed, with outputs. */
  lemma ShapeSucceed(done: set<NodeId>, nodes: set<NodeId>, reach: set<NodeId>, s: Snapshot, s': Snapshot,
                     members: set<NodeId>, n: NodeId)
    requires Shape(done, nodes, reach, s, false) && members <= nodes && n in members
    requires s'.outputs.Keys == s.outputs.Keys + members && s'.results.Keys == s.results.Keys + members
    requires forall m :: m in s'.results ==>
              if m in members then Is(s', m, SUCCEEDED) else s'.results[m] == s.results[m]
    requires s'.errors == []
    ensures Shape(done + {n}, nodes, reach + members, s', false)
  {
    forall m | m in s'.results ensures Is(s', m, SUCCEEDED) {
      if m !in members {
        assert Is(s, m, SUCCEEDED);
      }
    }
  }

  /** One node fails with an error of its own; some others without a result are skipped. */
  lemma ShapeFail(done: set<NodeId>, nodes: set<NodeId>, reach: set<NodeId>, s: Snapshot, f: NodeId, e: NodeError,
                  skipped: set<NodeId>, s': Snapshot, n: NodeId)
    requires Shape(done, nodes, reach, s, false) && f !in s.results && f in nodes && skipped <= nodes
    requires n in skipped + {f}
    requires e.node == f && e in s'.errors
    requires s'.outputs == s.outputs && s'.results == SkipAll(s.results[f := FailedResult(e)], skipped)
    ensures Shape(done + {n}, nodes, reach, s', true)
  {
    assert Is(s', f, FAILED);
    forall m | m in s.results ensures s'.results[m] == s.results[m] {
      assert m != f;
    }
    forall m ensures Is(s', m, FAILED) <==> m == f {
      if m in s.results {
        assert Is(s, m, SUCCEEDED);
      }
    }
    forall m ensures Is(s', m, SUCCEEDED) <==> Is(s, m, SUCCEEDED) {}
    assert ErrorRecorded(s', f);
  }

  // ---------------------------------------------------------------- position in the run

  /** The first `k` nodes, and the scopes of the iterators among them. */
  ghost predicate Reached(env: Env, k: nat, n: NodeId)
    requires k <= |env.order|
  {
    n in Elements(env.order[..k]) || exists it ::
        it in Elements(env.order[..k]) && FansOut(env, it) && n in Below(env, it)
  }

  ghost function ReachedSet(env: Env, k: nat): set<NodeId>
    requires k <= |env.order|
  {
    set n | n in Nodes(env) && Reached(env, k, n)
  }

  ghost predicate FailFastOk(env: Env, k: nat, s: Snapshot, abort: bool) {
    k <= |env.order| && Shape(Elements(env.order[..k]), Nodes(env), ReachedSet(env, k), s, abort)
  }

  lemma PrefixGrows(env: Env, k: nat)
    requires k < |env.order|
    ensures Elements(env.order[..k + 1]) == Elements(env.order[..k]) + {env.order[k]}
  {
    assert env.order[..k + 1] == env.order[..k] + [env.order[k]];
  }

  lemma ReachGrows(env: Env, k: nat)
    requires k < |env.order| && env.order[k] in Nodes(env)
    ensures ReachedSet(env, k) + {env.order[k]} <= ReachedSet(env, k + 1)
    ensures FansOut(env, env.order[k]) && Below(env, env.order[k]) <= Nodes(env) ==>
            Below(env, env.order[k]) <= ReachedSet(env, k + 1)
  {
    PrefixGrows(env, k);
  }

  /** Nothing in the scope of the next iterator has been reached. */
  lemma ScopeUnreached(env: Env, k: nat, m: NodeId)
    requires ValidEnv(env) && k < |env.order| && FansOut(env, env.order[k]) && m in Below(env, env.order[k])
    ensures m !in ReachedSet(env, k)
  {
    var it := env.order[k];
    BelowIsLater(env, k, m);
    PrefixGrows(env, k);
    forall other | other in Elements(env.order[..k]) && FansOut(env, other) ensures m !in Below(env, other) {
      var i :| 0 <= i < k && env.order[..k][i] == other;
      assert env.order[i] != env.order[k];
      ScopesApart(env, other, it);
    }
  }

  lemma ShapeAt(env: Env, k: nat, s: Snapshot, abort: bool, reach: set<NodeId>)
    requires k < |env.order| && reach <= ReachedSet(env, k + 1)
    requires Shape(Elements(env.order[..k]) + {env.order[k]}, Nodes(env), reach, s, abort)
    ensures FailFastOk(env, k + 1, s, abort)
  {
    PrefixGrows(env, k);
  }

  // ---------------------------------------------------------------- the steps of a run

  lemma AlreadyHasResult(env: Env, k: nat, s: Snapshot, abort: bool)
    requires k < |env.order| && env.order[k] in Nodes(env) && FailFastOk(env, k, s, abort) && env.order[k] in s.results
    ensures FailFastOk(env, k + 1, s, abort)
  {
    ReachGrows(env, k);
    ShapeAt(env, k, s, abort, ReachedSet(env, k));
  }

  lemma SkipAfterAbort(env: Env, k: nat, s: Snapshot)
    requires k < |env.order| && env.order[k] in Nodes(env) && FailFastOk(env, k, s, true) && env.order[k] !in s.results
    ensures FailFastOk(env, k + 1, s.(results := SkipAll(s.results, {env.order[k]})), true)
  {
    ReachGrows(env, k);
    ShapeSkip(Elements(env.order[..k]), Nodes(env), ReachedSet(env, k), s, env.order[k]);
    ShapeAt(env, k, s.(results := SkipAll(s.results, {env.order[k]})), true, ReachedSet(env, k));
  }

  lemma OnlyOneSucceeds(env: Env, s: Snapshot, n: NodeId, outputs: Outputs)
    ensures var s' := NodeSucceeds(env, s, n, outputs);
            && s'.outputs.Keys == s.outputs.Keys + {n} && s'.results.Keys == s.results.Keys + {n}
               && Is(s', n, SUCCEEDED)
            && forall m :: m in s.results && m != n ==> s'.results[m] == s.results[m]
  {
  }

  lemma PlainSucceeds(env: Env, k: nat, s: Snapshot, outputs: Outputs)
    requires k < |env.order| && env.order[k] in Nodes(env) && FailFastOk(env, k, s, false)
    ensures FailFastOk(env, k + 1, NodeSucceeds(env, s, env.order[k], outputs), false)
  {
    var n := env.order[k];
    var s' := NodeSucceeds(env, s, n, outputs);
    ReachGrows(env, k);
    OnlyOneSucceeds(env, s, n, outputs);
    ShapeSucceed(Elements(env.order[..k]), Nodes(env), ReachedSet(env, k), s, s', {n}, n);
    ShapeAt(env, k, s', false, ReachedSet(env, k) + {n});
  }

  lemma PlainFails(env: Env, k: nat, s: Snapshot, e: NodeError)
    requires env.failFast && k < |env.order| && env.order[k] in Nodes(env) && FailFastOk(env, k, s, false)
    requires env.order[k] !in s.results && e.node == env.order[k]
    ensures FailFastOk(env, k + 1, NodeFails(env, s, env.order[k], e), true)
  {
    var n := env.order[k];
    var s' := NodeFails(env, s, n, e);
    ReachGrows(env, k);
    assert s'.results == SkipAll(s.results[n := FailedResult(e)], {});
    assert s'.errors[|s.errors|] == e;
    ShapeFail(Elements(env.order[..k]), Nodes(env), ReachedSet(env, k), s, n, e, {}, s', n);
    ShapeAt(env, k, s', true, ReachedSet(env, k));
  }

  lemma PlanFailsOk(env: Env, k: nat, s: Snapshot, e: NodeError)
    requires k < |env.order| && env.order[k] in Nodes(env) && Below(env, env.order[k]) <= Nodes(env)
    requires FailFastOk(env, k, s, false)
    requires env.order[k] !in s.results && e.node == env.order[k]
    ensures FailFastOk(env, k + 1, PlanFails(env, s, env.order[k], e), true)
  {
    var it := env.order[k];
    var s' := PlanFails(env, s, it, e);
    ReachGrows(env, k);
    assert s'.errors[|s.errors|] == e;
    ShapeFail(Elements(env.order[..k]), Nodes(env), ReachedSet(env, k), s, it, e, Below(env, it), s', it);
    ShapeAt(env, k, s', true, ReachedSet(env, k));
  }

  lemma FirstFailure(job: Job, tasks: seq<Task>)
    requires ValidJob(job) && TasksOk(job, tasks) && Failures(tasks) != []
    ensures var f := Failures(tasks)[0];
            f.node in job.scope && f.error.node == f.node && f.error in ErrorsOf(Failures(tasks))
  {
    TasksIndexed(job, tasks);
    FailuresAre(tasks);
    var f := Failures(tasks)[0];
    assert f in Failures(tasks);
    assert ErrorsOf(Failures(tasks))[0] == f.error;
  }

  lemma FanoutAbortsOk(env: Env, k: nat, s: Snapshot, plan: Plan, tasks: seq<Task>)
    requires ValidEnv(env) && k < |env.order| && env.order[k] in Nodes(env) && FailFastOk(env, k, s, false)
    requires env.order[k] !in s.results && FansOut(env, env.order[k])
    requires var job := JobOf(env, s.outputs, env.order[k], plan); ValidJob(job) && TasksOk(job, tasks)
    requires Failures(tasks) != []
    ensures FailFastOk(env, k + 1, FanoutAborts(env, s, env.order[k], tasks), true)
  {
    var it, f := env.order[k], Failures(tasks)[0];
    var s' := FanoutAborts(env, s, it, tasks);
    JobIsValid(env, s.outputs, it, plan);
    FirstFailure(JobOf(env, s.outputs, it, plan), tasks);
    ScopeUnreached(env, k, f.node);
    BelowNodes(env, it);
    AbortShape(env, k, s, tasks, s');
  }

  lemma AbortShape(env: Env, k: nat, s: Snapshot, tasks: seq<Task>, s': Snapshot)
    requires k < |env.order| && env.order[k] in Nodes(env) && Below(env, env.order[k]) <= Nodes(env)
    requires FailFastOk(env, k, s, false)
    requires Failures(tasks) != [] && s' == FanoutAborts(env, s, env.order[k], tasks)
    requires var f := Failures(tasks)[0];
             f.node in Below(env, env.order[k]) && f.node !in ReachedSet(env, k) && f.error.node == f.node
             && f.error in ErrorsOf(Failures(tasks))
    ensures FailFastOk(env, k + 1, s', true)
  {
    var it, f := env.order[k], Failures(tasks)[0];
    ReachGrows(env, k);
    ShapeFail(Elements(env.order[..k]), Nodes(env), ReachedSet(env, k), s, f.node, f.error, {it} + Below(env, it),
        s', it);
    ShapeAt(env, k, s', true, ReachedSet(env, k));
  }

  lemma FanoutJoinsOk(env: Env, k: nat, s: Snapshot, plan: Plan, tasks: seq<Task>)
    requires k < |env.order| && FailFastOk(env, k, s, false)
    requires env.order[k] in Nodes(env) && Below(env, env.order[k]) <= Nodes(env) && FansOut(env, env.order[k])
    requires |tasks| == |plan.values| && Failures(tasks) == []
    ensures FailFastOk(env, k + 1, FanoutJoins(env, s, env.order[k], plan, tasks), false)
  {
    var it := env.order[k];
    JoinsAre(env, s, it, plan, tasks);
    JoinShape(env, k, s, FanoutJoins(env, s, it, plan, tasks));
  }

  lemma JoinShape(env: Env, k: nat, s: Snapshot, s': Snapshot)
    requires k < |env.order| && FailFastOk(env, k, s, false)
    requires env.order[k] in Nodes(env) && Below(env, env.order[k]) <= Nodes(env) && FansOut(env, env.order[k])
    requires Joined(s, s', {env.order[k]} + Below(env, env.order[k]), [])
    ensures FailFastOk(env, k + 1, s', false)
  {
    var it := env.order[k];
    ReachGrows(env, k);
    ShapeSucceed(Elements(env.order[..k]), Nodes(env), ReachedSet(env, k), s, s', {it} + Below(env, it), it);
    ShapeAt(env, k, s', false, ReachedSet(env, k) + ({it} + Below(env, it)));
  }

  // ---------------------------------------------------------------- the end of the run

  /** A finished fail-fast run: one result per node; it failed exactly when some node failed, and
      then exactly one did; the outputs are those of the succeeded nodes. */
  ghost predicate FailFastLaws(env: Env, s: Snapshot) {
    && s.results.Keys == Nodes(env)
    && ErrorsMatch(s)
    && OutputsOfSucceeded(s)
    && (s.errors != [] ==> OneFailed(s))
    && (s.errors == [] ==> forall n :: n in Nodes(env) ==> Is(s, n, SUCCEEDED))
  }

  lemma FailFastEnds(env: Env, s: Snapshot, abort: bool)
    requires Elements(env.order) == Nodes(env) && FailFastOk(env, |env.order|, s, abort)
    ensures FailFastLaws(env, s)
  {
    assert env.order[..|env.order|] == env.order;
    if abort {
      var f :| Is(s, f, FAILED);
      assert SomeNodeFailed(s);
    }
  }
}
