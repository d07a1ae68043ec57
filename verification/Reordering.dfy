/** Continue-on-error runs of pipelines with iterators, in two different topological orders. When in
    both orders every scope's outside inputs come before its iterator, the runs end with the same
    outputs. */
module Reordering {
  import opened Wrappers
  import opened Chains
  import opened Graphs
  import opened Topo
  import opened Pipelines
  import opened NodeExecution
  import opened Fanout
  import opened EngineModel
  import opened FailFast
  import opened ContinueOnError
  import opened Modes
  import opened Meaning
  import opened ScopeInputs
  import opened Iterations

  /** Every scope's outside inputs and reference targets come before its iterator. */
  ghost predicate AllReady(env: Env) {
    forall k :: 0 <= k < |env.order| && FansOut(env, env.order[k]) ==> ScopeReady(env, k)
  }

  ghost predicate Unscoped(env: Env, n: NodeId) {
    n in Nodes(env) && !InSomeScope(env, n)
  }

  /** Outside all scopes and no iterator. */
  ghost predicate Free(env: Env, n: NodeId) {
    Unscoped(env, n) && !FansOut(env, n)
  }

  // ---------------------------------------------------------------- runs only grow

  ghost function SeqStates(env: Env): nat -> Snapshot
    requires ValidEnv(env)
  {
    (k: nat) => if k <= |env.order| then SeqRun(env, k) else NOTHING
  }

  ghost function Extending(): (Snapshot, Snapshot) -> bool {
    (s: Snapshot, s': Snapshot) => Extends(s, s')
  }

  lemma ExtendsTransits(a: Snapshot, b: Snapshot, c: Snapshot)
    ensures Transits(Extending(), a, b, c)
  {
    if Extends(a, b) && Extends(b, c) {
      forall n | n in a.results && !Is(a, n, SKIPPED) ensures n in c.results && c.results[n] == a.results[n] {
        assert n in b.results && b.results[n] == a.results[n];
      }
    }
  }

  lemma StatesRelated(env: Env, k: nat)
    requires ValidEnv(env) && !env.failFast && k < |env.order|
    ensures RelatedAt(SeqStates(env), Extending(), k)
  {
    RunExtendsAt(env, k);
  }

  lemma StateExtendsItself(s: Snapshot)
    ensures Extends(s, s)
  {
  }

  lemma RunExtends(env: Env, j: nat, k: nat)
    requires ValidEnv(env) && !env.failFast && j <= k <= |env.order|
    ensures Extends(SeqRun(env, j), SeqRun(env, k))
  {
    StateExtendsItself(SeqRun(env, j));
    forall m: nat | j <= m < k ensures RelatedAt(SeqStates(env), Extending(), m) {
      StatesRelated(env, m);
    }
    forall a, b, c ensures Transits(Extending(), a, b, c) {
      ExtendsTransits(a, b, c);
    }
    Accumulates(SeqStates(env), Extending(), j, k);
  }

  // ---------------------------------------------------------------- what is done is settled

  /** The facts about a moment of a run and its end that the following uses. */
  ghost predicate Settling(env: Env, done: set<NodeId>, s: Snapshot, end: Snapshot) {
    ContinueOk(env, done, s) && ContinueLaws(env, end) && Extends(s, end)
  }

  lemma RunSettles(env: Env, k: nat)
    requires ValidEnv(env) && !env.failFast && k <= |env.order|
    ensures Settling(env, Elements(env.order[..k]), SeqRun(env, k), SeqRun(env, |env.order|))
  {
    SeqRunOk(env, k);
    SequentialRunLaws(env);
    RunExtends(env, k, |env.order|);
  }

  lemma FailureLasts(env: Env, s: Snapshot, end: Snapshot, n: NodeId)
    requires Extends(s, end) && HasFailedAbove(env, s, n)
    ensures HasFailedAbove(env, end, n)
  {
    var a :| a in Above(env, n) && Is(s, a, FAILED);
    assert Is(end, a, FAILED);
  }

  lemma SkipLasts(env: Env, done: set<NodeId>, s: Snapshot, end: Snapshot, n: NodeId)
    requires Settling(env, done, s, end) && Is(s, n, SKIPPED) && Unscoped(env, n)
    ensures HasFailedAbove(env, end, n) && Is(end, n, SKIPPED) && n !in end.outputs
  {
    assert HasFailedAbove(env, s, n);
    FailureLasts(env, s, end, n);
  }

  lemma NoOutputsLast(env: Env, done: set<NodeId>, s: Snapshot, end: Snapshot, x: NodeId)
    requires Settling(env, done, s, end) && x in done && Unscoped(env, x) && x !in s.outputs
    ensures x !in end.outputs
  {
    assert x in s.results;
    if Is(s, x, SKIPPED) {
      SkipLasts(env, done, s, end, x);
    } else {
      assert Is(s, x, FAILED);
      assert Is(end, x, FAILED);
    }
  }

  lemma DoneIsSettled(env: Env, done: set<NodeId>, s: Snapshot, end: Snapshot, x: NodeId)
    requires Settling(env, done, s, end) && x in done && Unscoped(env, x)
    ensures SameAt(s.outputs, end.outputs, x)
  {
    if x !in s.outputs {
      NoOutputsLast(env, done, s, end, x);
    }
  }

  /** Above what lies in no scope there is neither a scope nor an iterator. */
  lemma AboveUnscopedIsFree(env: Env, n: NodeId, a: NodeId)
    requires ValidEnv(env) && Unscoped(env, n) && a in Above(env, n)
    ensures Free(env, a)
  {
    BelowNodes(env, n);
    BelowAbove(env, a, n);
    forall it | FansOut(env, it) ensures a !in Below(env, it) {
      if a in Below(env, it) {
        BelowTransitive(env, it, a);
      }
    }
  }

  lemma ReadsSettled(env: Env, done: set<NodeId>, s: Snapshot, end: Snapshot, n: NodeId)
    requires ValidEnv(env) && Settling(env, done, s, end) && Unscoped(env, n) && Above(env, n) <= done
    ensures Agree(s.outputs, end.outputs, Reads(env.p, n))
  {
    ReadsAreAncestors(env.rt.registry, env.p, n);
    forall x | x in Reads(env.p, n) ensures SameAt(s.outputs, end.outputs, x) {
      AboveUnscopedIsFree(env, n, x);
      DoneIsSettled(env, done, s, end, x);
    }
  }

  // ---------------------------------------------------------------- what the end says of a free node

  /** The result and outputs of a node that ran. */
  ghost predicate RanAs(env: Env, s: Snapshot, n: NodeId, r: Result<Outputs, NodeError>) {
    && n in s.results
    && (r.Ok? ==> n in s.outputs && s.outputs[n] == r.value
                  && s.results[n] == NodeResult(SUCCEEDED, Some(|Primary(env.rt, r.value)|), None, None))
    && (r.Err? ==> n !in s.outputs && s.results[n] == FailedResult(r.error))
  }

  ghost predicate FreeSays(env: Env, s: Snapshot, n: NodeId)
    requires n in Nodes(env)
  {
    if HasFailedAbove(env, s, n) then Is(s, n, SKIPPED) && n !in s.outputs
    else RanAs(env, s, n, ExecuteNode(env.rt, env.p, n, s.outputs, None))
  }

  lemma RanLasts(env: Env, done: set<NodeId>, s: Snapshot, s': Snapshot, end: Snapshot, n: NodeId,
                 r: Result<Outputs, NodeError>)
    requires Settling(env, done, s', end) && Unscoped(env, n) && n in done && n !in s.results && n !in s.outputs
    requires s' == Recorded(env, s, n, r)
    ensures RanAs(env, end, n, r) && !HasFailedAbove(env, end, n)
  {
    assert n in s'.results && !Is(s', n, SKIPPED);
    DoneIsSettled(env, done, s', end, n);
    assert !Is(end, n, SKIPPED);
  }

  lemma EarlyUnscopedIsSkipped(env: Env, done: set<NodeId>, s: Snapshot, n: NodeId)
    requires EarlyResults(env, done, s) && Unscoped(env, n) && n in s.results && n !in done
    ensures Is(s, n, SKIPPED)
  {
    assert InFinishedScope(env, done, s, n) ==> InSomeScope(env, n);
  }

  lemma FreeTurn(env: Env, k: nat)
    requires ValidEnv(env) && !env.failFast && k < |env.order| && Free(env, env.order[k])
    ensures FreeSays(env, SeqRun(env, |env.order|), env.order[k])
  {
    var n, s, end := env.order[k], SeqRun(env, k), SeqRun(env, |env.order|);
    var done := Elements(env.order[..k]);
    FrontOf(env, k);
    RunSettles(env, k);
    if n in s.results {
      EarlyUnscopedIsSkipped(env, done, s, n);
      SkipLasts(env, done, s, end, n);
    } else {
      FreshFreeTurn(env, k, s, end);
    }
  }

  lemma FreshFreeTurn(env: Env, k: nat, s: Snapshot, end: Snapshot)
    requires ValidEnv(env) && !env.failFast && k < |env.order| && Free(env, env.order[k]) && env.order[k] !in s.results
    requires s == SeqRun(env, k) && end == SeqRun(env, |env.order|)
    ensures FreeSays(env, end, env.order[k])
  {
    var n, done := env.order[k], Elements(env.order[..k]);
    FrontOf(env, k);
    RunSettles(env, k);
    RunSettles(env, k + 1);
    PrefixGrows(env, k);
    var r := ExecuteNode(env.rt, env.p, n, s.outputs, None);
    PlainTurn(env, k, s, n, r);
    NoEarlyOutput(env, done, s, n);
    RanLasts(env, done + {n}, s, SeqRun(env, k + 1), end, n, r);
    ReadsSettled(env, done, s, end, n);
    ExecuteFrame(env.rt, env.p, n, s.outputs, end.outputs, None);
  }

  lemma NoEarlyOutput(env: Env, done: set<NodeId>, s: Snapshot, n: NodeId)
    requires ContinueOk(env, done, s) && n !in s.results
    ensures n !in s.outputs
  {
  }

  lemma PositionIn(env: Env, n: NodeId) returns (k: nat)
    requires ValidEnv(env) && n in Nodes(env)
    ensures k < |env.order| && env.order[k] == n
  {
    OrderCovers(env);
    assert n in Elements(env.order);
    k :| 0 <= k < |env.order| && env.order[k] == n;
  }

  /** At the end of a run every free node is skipped because of a failure above it, or its own function
      of the final outputs. */
  lemma EveryFreeNodeSays(env: Env, n: NodeId)
    requires ValidEnv(env) && !env.failFast && Free(env, n)
    ensures FreeSays(env, SeqRun(env, |env.order|), n)
  {
    var k := PositionIn(env, n);
    FreeTurn(env, k);
  }

  // ---------------------------------------------------------------- free nodes agree

  ghost predicate SameResult(s: Snapshot, s': Snapshot, n: NodeId) {
    && n in s.results && n in s'.results && s.results[n].status == s'.results[n].status
    && (!Is(s, n, SKIPPED) ==> s.results[n] == s'.results[n])
  }

  ghost predicate NodeAgrees(s: Snapshot, s': Snapshot, n: NodeId) {
    SameResult(s, s', n) && SameAt(s.outputs, s'.outputs, n)
  }

  /** The same pipeline in two orders. */
  ghost predicate TwoOrders(env: Env, other: Env) {
    ValidEnv(env) && ValidEnv(other) && !env.failFast && other == env.(order := other.order)
  }

  lemma SameFailedAbove(env: Env, s: Snapshot, s': Snapshot, n: NodeId)
    requires forall a :: a in Above(env, n) ==> NodeAgrees(s, s', a)
    ensures HasFailedAbove(env, s, n) <==> HasFailedAbove(env, s', n)
  {
    if HasFailedAbove(env, s, n) {
      var a :| a in Above(env, n) && Is(s, a, FAILED);
      assert NodeAgrees(s, s', a);
      assert Is(s', a, FAILED);
    }
    if HasFailedAbove(env, s', n) {
      var a :| a in Above(env, n) && Is(s', a, FAILED);
      assert NodeAgrees(s, s', a);
      assert Is(s, a, FAILED);
    }
  }

  lemma SameSaying(env: Env, s: Snapshot, s': Snapshot, n: NodeId)
    requires n in Nodes(env) && n in s.results && n in s'.results && Reads(env.p, n) <= Above(env, n)
    requires forall a :: a in Above(env, n) ==> NodeAgrees(s, s', a)
    requires FreeSays(env, s, n) && FreeSays(env, s', n)
    ensures NodeAgrees(s, s', n)
  {
    SameFailedAbove(env, s, s', n);
    forall x | x in Reads(env.p, n) ensures SameAt(s.outputs, s'.outputs, x) {
      assert NodeAgrees(s, s', x);
    }
    ExecuteFrame(env.rt, env.p, n, s.outputs, s'.outputs, None);
  }

  lemma {:induction false} FreeNodesAgree(env: Env, other: Env, n: NodeId)
    requires TwoOrders(env, other) && Free(env, n)
    ensures NodeAgrees(SeqRun(env, |env.order|), SeqRun(other, |other.order|), n)
    decreases Ancestors(env.p.edges, n)
  {
    var s, s' := SeqRun(env, |env.order|), SeqRun(other, |other.order|);
    EnvIsDag(env);
    AncestorsOfDag(env.p, n);
    forall a | a in Above(env, n) ensures NodeAgrees(s, s', a) {
      AboveUnscopedIsFree(env, n, a);
      FreeNodesAgree(env, other, a);
    }
    SaysInBoth(env, other, n);
    ReadsAreAncestors(env.rt.registry, env.p, n);
    SameSaying(env, s, s', n);
  }

  lemma SaysInBoth(env: Env, other: Env, n: NodeId)
    requires TwoOrders(env, other) && Free(env, n)
    ensures var s, s' := SeqRun(env, |env.order|), SeqRun(other, |other.order|);
            n in s.results && n in s'.results && FreeSays(env, s, n) && FreeSays(env, s', n)
  {
    var s' := SeqRun(other, |other.order|);
    SameFree(env, other, n);
    EveryFreeNodeSays(env, n);
    EveryFreeNodeSays(other, n);
    SequentialRunLaws(env);
    SequentialRunLaws(other);
    assert HasFailedAbove(other, s', n) <==> HasFailedAbove(env, s', n);
  }

  lemma SameFree(env: Env, other: Env, n: NodeId)
    requires other == env.(order := other.order)
    ensures Free(env, n) <==> Free(other, n)
    ensures Unscoped(env, n) <==> Unscoped(other, n)
  {
    assert forall it :: FansOut(env, it) <==> FansOut(other, it);
    assert InSomeScope(env, n) <==> InSomeScope(other, n) by {
      if InSomeScope(env, n) {
        var it :| FansOut(env, it) && n in Below(env, it);
        assert FansOut(other, it) && n in Below(other, it);
      }
      if InSomeScope(other, n) {
        var it :| FansOut(other, it) && n in Below(other, it);
        assert FansOut(env, it) && n in Below(env, it);
      }
    }
  }

  // ---------------------------------------------------------------- what the end says of an iterator

  lemma {:induction false} RestrictIsDistinct(order: seq<NodeId>, scope: set<NodeId>)
    requires Distinct(order)
    ensures Distinct(Restrict(order, scope))
  {
    if order != [] {
      var front, n := order[..|order| - 1], order[|order| - 1];
      DistinctFront(order);
      RestrictIsDistinct(front, scope);
      assert n !in front;
      DistinctConcat(Restrict(front, scope), if n in scope then [n] else []);
    }
  }

  /** The jobs of a run list their scope in an order that its reads follow. */
  lemma JobIsWellOrdered(env: Env, outputs: View, it: NodeId, plan: Plan)
    requires ValidEnv(env)
    ensures WellOrdered(JobOf(env, outputs, it, plan))
  {
    var job := JobOf(env, outputs, it, plan);
    JobIsValid(env, outputs, it, plan);
    RestrictIsDistinct(env.order, Below(env, it));
    BelowNodes(env, it);
    forall k, x | 0 <= k < |job.scope| && x in Reads(job.p, job.scope[k]) ensures InnerEarlier(job, k, x) {
      JobReadsEarlier(env, outputs, it, plan, k, x);
    }
  }

  lemma JobReadsEarlier(env: Env, outputs: View, it: NodeId, plan: Plan, k: nat, x: NodeId)
    requires ValidEnv(env)
    requires var job := JobOf(env, outputs, it, plan);
             k < |job.scope| && job.scope[k] in Ids(job.p.nodes) && x in Reads(job.p, job.scope[k])
    ensures InnerEarlier(JobOf(env, outputs, it, plan), k, x)
  {
    var job := JobOf(env, outputs, it, plan);
    if x in job.scope {
      ReadsAreAncestors(env.rt.registry, env.p, job.scope[k]);
      InnerReadsAreEarlier(env, it, k, x);
    }
  }

  /** What a member reads from outside the fan-out is free. */
  lemma OutsideReadIsFree(env: Env, it: NodeId, m: NodeId, x: NodeId)
    requires ValidEnv(env) && FansOut(env, it) && m in Below(env, it) && x in Above(env, m) && x != it
    requires x !in Below(env, it)
    ensures Free(env, x)
  {
    BelowNodes(env, m);
    BelowAbove(env, x, m);
    assert !FansOut(env, x) by {
      if FansOut(env, x) {
        ScopesApart(env, it, x);
      }
    }
    forall other | FansOut(env, other) ensures x !in Below(env, other) {
      if x in Below(env, other) {
        BelowTransitive(env, other, x);
        if other != it {
          ScopesApart(env, it, other);
        }
      }
    }
  }

  /** Two jobs of the same fan-out, in two orders, on outputs that agree on the free nodes read. */
  lemma JobsReordered(env: Env, other: Env, outputs: View, outputs': View, it: NodeId, plan: Plan)
    requires ValidEnv(env) && ValidEnv(other) && other == env.(order := other.order) && FansOut(env, it)
    requires forall m, x :: m in Below(env, it) && m in Nodes(env) && x in Reads(env.p, m) && Free(env, x) ==>
              SameAt(outputs, outputs', x)
    ensures Reordered(JobOf(env, outputs, it, plan), JobOf(other, outputs', it, plan))
  {
    var job, job' := JobOf(env, outputs, it, plan), JobOf(other, outputs', it, plan);
    JobIsWellOrdered(env, outputs, it, plan);
    JobIsWellOrdered(other, outputs', it, plan);
    JobIsValid(env, outputs, it, plan);
    JobIsValid(other, outputs', it, plan);
    assert Below(env, it) == Below(other, it);
    forall k, x | 0 <= k < |job.scope| && x in Reads(job.p, job.scope[k]) ensures OutsideAgrees(job, job', x) {
      assert job.scope[k] in job.scope;
      if x != it && x !in job.scope {
        ReadsAreAncestors(env.rt.registry, env.p, job.scope[k]);
        OutsideReadIsFree(env, it, job.scope[k], x);
      }
    }
  }

  /** The members have what the fan-out over these outputs combines, and some member failed exactly when
      some iteration fails. */
  ghost predicate FannedOutAs(env: Env, s: Snapshot, it: NodeId, plan: Plan, job: Job)
    requires it in Nodes(env) && Below(env, it) <= Nodes(env)
  {
    && WellOrdered(job) && |job.values| == |plan.values|
    && (forall m :: m in {it} + Below(env, it) ==> CombinedAs(env, s, plan, job, m))
    && it in s.outputs && it in s.results
    && s.results[it] == NodeResult(SUCCEEDED, Some(|Primary(env.rt, s.outputs[it])|), Some(|plan.values|), None)
    && (SomeMemberFailed(env, s, it) <==> SomeFails(job))
  }

  ghost predicate CombinedAs(env: Env, s: Snapshot, plan: Plan, job: Job, m: NodeId)
    requires m in Nodes(env) && ValidJob(job) && |job.values| == |plan.values|
  {
    m in s.outputs && s.outputs[m] == MemberOutputs(env, plan, Sequential(job), m)
  }

  ghost predicate SomeMemberFailed(env: Env, s: Snapshot, it: NodeId) {
    exists m :: m in Below(env, it) && Is(s, m, FAILED)
  }

  ghost predicate NoMemberOutputs(env: Env, s: Snapshot, it: NodeId) {
    {it} + Below(env, it) !! s.outputs.Keys
  }

  ghost predicate IteratorSays(env: Env, s: Snapshot, it: NodeId)
    requires it in Nodes(env) && Below(env, it) <= Nodes(env)
  {
    if HasFailedAbove(env, s, it) then Is(s, it, SKIPPED) && NoMemberOutputs(env, s, it)
    else
      match PlanOf(env.rt, env.p, it, s.outputs)
      case Err(e) => it in s.results && s.results[it] == FailedResult(e) && NoMemberOutputs(env, s, it)
      case Ok(plan) => FannedOutAs(env, s, it, plan, JobOf(env, s.outputs, it, plan))
  }

  /** Scopes of iterators that did not succeed have no outputs. */
  lemma UnsuccessfulScope(env: Env, s: Snapshot, it: NodeId)
    requires ContinueLaws(env, s) && FansOut(env, it) && Unscoped(env, it) && !Is(s, it, SUCCEEDED)
    ensures NoMemberOutputs(env, s, it)
  {
    forall m | m in {it} + Below(env, it) ensures m !in s.outputs {
      if m in Below(env, it) {
        assert Is(s, m, SKIPPED);
      }
    }
  }

  lemma IteratorIsUnscoped(env: Env, it: NodeId)
    requires ValidEnv(env) && FansOut(env, it)
    ensures Unscoped(env, it)
  {
    BelowNodes(env, it);
    forall other | FansOut(env, other) ensures it !in Below(env, other) {
      if other != it {
        ScopesApart(env, other, it);
      }
    }
  }

  /** The fan-out as it was at its turn. */
  lemma FannedOutAtTurn(env: Env, s: Snapshot, s': Snapshot, it: NodeId, plan: Plan, job: Job)
    requires it in Nodes(env) && Below(env, it) <= Nodes(env) && it !in Below(env, it)
    requires WellOrdered(job) && job == JobOf(env, s.outputs, it, plan) && forall n :: n in job.scope ==>
              n in Below(env, it)
    requires s' == FanoutJoins(env, s, it, plan, Sequential(job))
    ensures FannedOutAs(env, s', it, plan, job)
  {
    var tasks := Sequential(job);
    JoinsAre(env, s, it, plan, tasks);
    WithinScope(job, Below(env, it));
    JoinBlames(s, s', {it} + Below(env, it), Failures(tasks), it);
    assert ResultFor(s'.results[it], Failures(tasks), it);
    BlamesSome(env, s, s', it, job);
  }

  lemma BlamesSome(env: Env, s: Snapshot, s': Snapshot, it: NodeId, job: Job)
    requires ValidJob(job) && FailuresWithin(Failures(Sequential(job)), Below(env, it))
    requires Joined(s, s', {it} + Below(env, it), Failures(Sequential(job)))
    ensures SomeMemberFailed(env, s', it) <==> SomeFails(job)
  {
    var failures := Failures(Sequential(job));
    SequentialIsFinished(job);
    ReportedFailuresAreTrue(job, Sequential(job));
    if failures != [] {
      assert failures[0] in failures;
      JoinBlames(s, s', {it} + Below(env, it), failures, failures[0].node);
    }
    if SomeMemberFailed(env, s', it) {
      var m :| m in Below(env, it) && Is(s', m, FAILED);
      JoinBlames(s, s', {it} + Below(env, it), failures, m);
    }
  }

  /** It lasts: the run's end says it too. */
  lemma FannedOutLasts(env: Env, s: Snapshot, end: Snapshot, it: NodeId, plan: Plan, job: Job)
    requires it in Nodes(env) && Below(env, it) <= Nodes(env)
    requires FannedOutAs(env, s, it, plan, job) && Extends(s, end)
    requires forall m :: m in Below(env, it) ==> m in s.results && !Is(s, m, SKIPPED)
    ensures FannedOutAs(env, end, it, plan, job)
  {
    forall m | m in {it} + Below(env, it) ensures CombinedAs(env, end, plan, job, m) {
      assert CombinedAs(env, s, plan, job, m);
    }
    forall m | m in Below(env, it) ensures Is(end, m, FAILED) <==> Is(s, m, FAILED) {}
    if SomeMemberFailed(env, s, it) {
      var m :| m in Below(env, it) && Is(s, m, FAILED);
      assert Is(end, m, FAILED);
    }
    if SomeMemberFailed(env, end, it) {
      var m :| m in Below(env, it) && Is(end, m, FAILED);
      assert Is(s, m, FAILED);
    }
  }

  /** And it can be told from other outputs that agree where the scope reads. */
  lemma FannedOutReordered(env: Env, s: Snapshot, it: NodeId, plan: Plan, job: Job, other: Job)
    requires it in Nodes(env) && Below(env, it) <= Nodes(env)
    requires FannedOutAs(env, s, it, plan, job) && Reordered(job, other)
    ensures FannedOutAs(env, s, it, plan, other)
  {
    SequentialSameCompleted(job, other);
    forall m | m in {it} + Below(env, it) ensures CombinedAs(env, s, plan, other, m) {
      assert CombinedAs(env, s, plan, job, m);
      SameCombined(plan.values, plan.fanIn, DeclaredPorts(env, m), Sequential(job), Sequential(other), m);
    }
    SameFails(job, other);
  }

  lemma SameFails(job: Job, other: Job)
    requires Reordered(job, other)
    ensures SomeFails(job) <==> SomeFails(other)
  {
    forall i | 0 <= i < |job.values| ensures IterationOf(job, i).Err? <==> IterationOf(other, i).Err? {
      OrderOfScopeDoesNotMatter(job, other, i);
    }
    if SomeFails(job) {
      var i :| 0 <= i < |job.values| && IterationOf(job, i).Err?;
      assert IterationOf(other, i).Err?;
    }
    if SomeFails(other) {
      var i :| 0 <= i < |other.values| && IterationOf(other, i).Err?;
      assert IterationOf(job, i).Err?;
    }
  }

  // ---------------------------------------------------------------- the turn of an iterator

  lemma ScopeReadSettled(env: Env, k: nat, s: Snapshot, end: Snapshot, m: NodeId, x: NodeId)
    requires k < |env.order| && FansOut(env, env.order[k]) && Settling(env, Elements(env.order[..k]), s, end)
    requires Free(env, x)
    requires x in {env.order[k]} + Below(env, env.order[k]) + Elements(env.order[..k])
    ensures SameAt(s.outputs, end.outputs, x)
  {
    assert x !in Below(env, env.order[k]);
    DoneIsSettled(env, Elements(env.order[..k]), s, end, x);
  }

  lemma ScopeReadsSettled(env: Env, k: nat, s: Snapshot, end: Snapshot)
    requires k < |env.order| && FansOut(env, env.order[k]) && ScopeReady(env, k)
    requires Settling(env, Elements(env.order[..k]), s, end)
    ensures forall m, x :: m in Below(env, env.order[k]) && m in Nodes(env) && x in Reads(env.p, m) && Free(env, x) ==>
              SameAt(s.outputs, end.outputs, x)
  {
    var it := env.order[k];
    forall m, x | m in Below(env, it) && m in Nodes(env) && x in Reads(env.p, m) && Free(env, x)
      ensures SameAt(s.outputs, end.outputs, x) {
      ScopeReadSettled(env, k, s, end, m, x);
    }
  }

  lemma PlanSettled(env: Env, k: nat, s: Snapshot, end: Snapshot)
    requires ValidEnv(env) && k < |env.order| && Unscoped(env, env.order[k])
    requires Settling(env, Elements(env.order[..k]), s, end)
    ensures PlanOf(env.rt, env.p, env.order[k], s.outputs) == PlanOf(env.rt, env.p, env.order[k], end.outputs)
  {
    FrontOf(env, k);
    ReadsSettled(env, Elements(env.order[..k]), s, end, env.order[k]);
    PlanFrame(env.rt, env.p, env.order[k], s.outputs, end.outputs);
  }

  /** A result other than a skip, outside all scopes, rules out a failure above. */
  lemma CleanResult(env: Env, s: Snapshot, end: Snapshot, n: NodeId)
    requires ContinueLaws(env, end) && Extends(s, end) && Unscoped(env, n) && n in s.results && !Is(s, n, SKIPPED)
    ensures !HasFailedAbove(env, end, n) && n in end.results && end.results[n] == s.results[n]
  {
    assert !Is(end, n, SKIPPED);
  }

  lemma FailedPlanSays(env: Env, s: Snapshot, end: Snapshot, it: NodeId, e: NodeError)
    requires it in Nodes(env) && Below(env, it) <= Nodes(env) && FansOut(env, it) && Unscoped(env, it)
    requires it !in s.results
    requires it !in Below(env, it) && ContinueLaws(env, end) && Extends(PlanFails(env, s, it, e), end)
    requires PlanOf(env.rt, env.p, it, end.outputs) == Err(e)
    ensures IteratorSays(env, end, it)
  {
    var s' := PlanFails(env, s, it, e);
    assert s'.results[it] == FailedResult(e);
    CleanResult(env, s', end, it);
    UnsuccessfulScope(env, end, it);
  }

  lemma MembersNotSkipped(s: Snapshot, s': Snapshot, members: set<NodeId>, failures: seq<Failure>)
    requires Joined(s, s', members, failures)
    ensures forall m :: m in members ==> m in s'.results && !Is(s', m, SKIPPED)
  {
    forall m | m in members ensures m in s'.results && !Is(s', m, SKIPPED) {
      assert ResultFor(s'.results[m], failures, m);
    }
  }

  lemma JoinedSays(env: Env, s: Snapshot, end: Snapshot, it: NodeId, plan: Plan, job: Job)
    requires ValidEnv(env) && FansOut(env, it) && Unscoped(env, it) && ContinueLaws(env, end)
    requires it in Nodes(env) && Below(env, it) <= Nodes(env) && it !in Below(env, it)
    requires WellOrdered(job) && job == JobOf(env, s.outputs, it, plan) && forall n :: n in job.scope ==>
              n in Below(env, it)
    requires Extends(FanoutJoins(env, s, it, plan, Sequential(job)), end)
    requires PlanOf(env.rt, env.p, it, end.outputs) == Ok(plan) && Reordered(job, JobOf(env, end.outputs, it, plan))
    ensures IteratorSays(env, end, it)
  {
    var s' := FanoutJoins(env, s, it, plan, Sequential(job));
    FannedOutAtTurn(env, s, s', it, plan, job);
    JoinsAre(env, s, it, plan, Sequential(job));
    MembersNotSkipped(s, s', {it} + Below(env, it), Failures(Sequential(job)));
    FannedOutLasts(env, s', end, it, plan, job);
    CleanResult(env, s', end, it);
    FannedOutReordered(env, end, it, plan, job, JobOf(env, end.outputs, it, plan));
  }

  lemma FreshIteratorTurn(env: Env, k: nat, s: Snapshot, end: Snapshot)
    requires ValidEnv(env) && !env.failFast && k < |env.order| && env.order[k] in Nodes(env)
    requires FansOut(env, env.order[k]) && Unscoped(env, env.order[k]) && ScopeReady(env, k)
    requires env.order[k] !in s.results
    requires s == SeqRun(env, k) && end == SeqRun(env, |env.order|) && Below(env, env.order[k]) <= Nodes(env)
    ensures IteratorSays(env, end, env.order[k])
  {
    var it := env.order[k];
    RunSettles(env, k);
    RunSettles(env, k + 1);
    PlanSettled(env, k, s, end);
    IteratorTurn(env, k, s, it);
    BelowNodes(env, it);
    match PlanOf(env.rt, env.p, it, s.outputs)
    case Err(e) => FailedPlanSays(env, s, end, it, e);
    case Ok(plan) =>
      ScopeReadsSettled(env, k, s, end);
      JobsReordered(env, env, s.outputs, end.outputs, it, plan);
      JobIsValid(env, s.outputs, it, plan);
      JoinedSays(env, s, end, it, plan, JobOf(env, s.outputs, it, plan));
  }

  /** At the end of a run every ready iterator is skipped because of a failure above it, failed to
      produce its values, or it and its scope have what its fan-out over the final outputs combines. */
  lemma EveryIteratorSays(env: Env, it: NodeId)
    requires ValidEnv(env) && !env.failFast && AllReady(env) && FansOut(env, it) && it in Nodes(env)
    requires Below(env, it) <= Nodes(env)
    ensures IteratorSays(env, SeqRun(env, |env.order|), it)
  {
    var k := PositionIn(env, it);
    var s, end, done := SeqRun(env, k), SeqRun(env, |env.order|), Elements(env.order[..k]);
    IteratorIsUnscoped(env, it);
    FrontOf(env, k);
    RunSettles(env, k);
    if it in s.results {
      EarlyUnscopedIsSkipped(env, done, s, it);
      SkipLasts(env, done, s, end, it);
      UnsuccessfulScope(env, end, it);
    } else {
      FreshIteratorTurn(env, k, s, end);
    }
  }

  // ---------------------------------------------------------------- iterators agree

  /** An iterator and its scope in two final states. */
  ghost predicate ScopeAgrees(env: Env, s: Snapshot, s': Snapshot, it: NodeId) {
    && SameResult(s, s', it)
    && (forall m :: m in {it} + Below(env, it) ==> SameAt(s.outputs, s'.outputs, m))
    && (Is(s, it, SUCCEEDED) ==> (SomeMemberFailed(env, s, it) <==> SomeMemberFailed(env, s', it)))
  }

  lemma BothFannedOut(env: Env, s: Snapshot, s': Snapshot, it: NodeId, plan: Plan, job: Job, job': Job)
    requires it in Nodes(env) && Below(env, it) <= Nodes(env)
    requires FannedOutAs(env, s, it, plan, job) && FannedOutAs(env, s', it, plan, job') && Reordered(job, job')
    ensures ScopeAgrees(env, s, s', it)
  {
    FannedOutReordered(env, s, it, plan, job, job');
    forall m | m in {it} + Below(env, it) ensures SameAt(s.outputs, s'.outputs, m) {
      assert CombinedAs(env, s, plan, job', m) && CombinedAs(env, s', plan, job', m);
    }
  }

  /** The sayings of a run in another order, told of this one's environment. */
  lemma SayingMoves(env: Env, other: Env, s: Snapshot, it: NodeId)
    requires other == env.(order := other.order) && it in Nodes(env) && Below(env, it) <= Nodes(env)
    requires IteratorSays(other, s, it)
    ensures HasFailedAbove(env, s, it) <==> HasFailedAbove(other, s, it)
    ensures HasFailedAbove(env, s, it) ==> Is(s, it, SKIPPED) && NoMemberOutputs(env, s, it)
    ensures !HasFailedAbove(env, s, it) ==>
              match PlanOf(env.rt, env.p, it, s.outputs)
              case Err(e) => it in s.results && s.results[it] == FailedResult(e) && NoMemberOutputs(env, s, it)
              case Ok(plan) => FannedOutAs(env, s, it, plan, JobOf(other, s.outputs, it, plan))
  {
    if !HasFailedAbove(env, s, it) && PlanOf(env.rt, env.p, it, s.outputs).Ok? {
      var plan := PlanOf(env.rt, env.p, it, s.outputs).value;
      FannedOutMoves(env, other, s, it, plan, JobOf(other, s.outputs, it, plan));
    }
  }

  lemma FannedOutMoves(env: Env, other: Env, s: Snapshot, it: NodeId, plan: Plan, job: Job)
    requires other == env.(order := other.order) && it in Nodes(env) && Below(env, it) <= Nodes(env)
    requires FannedOutAs(other, s, it, plan, job)
    ensures FannedOutAs(env, s, it, plan, job)
  {
    forall m | m in {it} + Below(env, it) ensures CombinedAs(env, s, plan, job, m) {
      assert CombinedAs(other, s, plan, job, m);
    }
    assert SomeMemberFailed(env, s, it) <==> SomeMemberFailed(other, s, it);
  }

  lemma IteratorsAgree(env: Env, other: Env, it: NodeId)
    requires TwoOrders(env, other) && AllReady(env) && AllReady(other) && FansOut(env, it)
    ensures ScopeAgrees(env, SeqRun(env, |env.order|), SeqRun(other, |other.order|), it)
  {
    var s, s' := SeqRun(env, |env.order|), SeqRun(other, |other.order|);
    IteratorIsUnscoped(env, it);
    BelowNodes(env, it);
    EveryIteratorSays(env, it);
    EveryIteratorSays(other, it);
    SayingMoves(env, other, s', it);
    IteratorReadsAgree(env, other, it);
    if !HasFailedAbove(env, s, it) && PlanOf(env.rt, env.p, it, s.outputs).Ok? {
      var plan := PlanOf(env.rt, env.p, it, s.outputs).value;
      ScopeReadsAgree(env, other, it);
      JobsReordered(env, other, s.outputs, s'.outputs, it, plan);
      BothFannedOut(env, s, s', it, plan, JobOf(env, s.outputs, it, plan), JobOf(other, s'.outputs, it, plan));
    }
  }

  lemma SamePlan(env: Env, s: Snapshot, s': Snapshot, it: NodeId)
    requires it in Nodes(env) && Reads(env.p, it) <= Above(env, it)
    requires forall a :: a in Above(env, it) ==> NodeAgrees(s, s', a)
    ensures HasFailedAbove(env, s, it) <==> HasFailedAbove(env, s', it)
    ensures PlanOf(env.rt, env.p, it, s.outputs) == PlanOf(env.rt, env.p, it, s'.outputs)
  {
    SameFailedAbove(env, s, s', it);
    forall x | x in Reads(env.p, it) ensures SameAt(s.outputs, s'.outputs, x) {
      assert NodeAgrees(s, s', x);
    }
    PlanFrame(env.rt, env.p, it, s.outputs, s'.outputs);
  }

  lemma IteratorReadsAgree(env: Env, other: Env, it: NodeId)
    requires TwoOrders(env, other) && FansOut(env, it) && Unscoped(env, it)
    ensures var s, s' := SeqRun(env, |env.order|), SeqRun(other, |other.order|);
            && it in s.results && it in s'.results
            && (HasFailedAbove(env, s, it) <==> HasFailedAbove(env, s', it))
            && PlanOf(env.rt, env.p, it, s.outputs) == PlanOf(env.rt, env.p, it, s'.outputs)
  {
    var s, s' := SeqRun(env, |env.order|), SeqRun(other, |other.order|);
    HasResult(env, it);
    HasResult(other, it);
    ReadsAreAncestors(env.rt.registry, env.p, it);
    forall a | a in Above(env, it) ensures NodeAgrees(s, s', a) {
      AboveUnscopedIsFree(env, it, a);
      FreeNodesAgree(env, other, a);
    }
    SamePlan(env, s, s', it);
  }

  lemma HasResult(env: Env, n: NodeId)
    requires ValidEnv(env) && !env.failFast && n in Nodes(env)
    ensures n in SeqRun(env, |env.order|).results
  {
    SequentialRunLaws(env);
  }

  lemma ScopeReadsAgree(env: Env, other: Env, it: NodeId)
    requires TwoOrders(env, other)
    ensures var s, s' := SeqRun(env, |env.order|), SeqRun(other, |other.order|);
            forall m, x :: m in Below(env, it) && m in Nodes(env) && x in Reads(env.p, m) && Free(env, x) ==>
                SameAt(s.outputs, s'.outputs, x)
  {
    var s, s' := SeqRun(env, |env.order|), SeqRun(other, |other.order|);
    forall m, x | m in Below(env, it) && m in Nodes(env) && x in Reads(env.p, m) && Free(env, x)
      ensures SameAt(s.outputs, s'.outputs, x) {
      FreeNodesAgree(env, other, x);
      assert NodeAgrees(s, s', x);
    }
  }

  // ---------------------------------------------------------------- the whole run

  lemma EveryOutputAgrees(env: Env, other: Env, n: NodeId)
    requires TwoOrders(env, other) && AllReady(env) && AllReady(other) && n in Nodes(env)
    ensures SameAt(SeqRun(env, |env.order|).outputs, SeqRun(other, |other.order|).outputs, n)
  {
    if it :| FansOut(env, it) && n in Below(env, it) {
      IteratorsAgree(env, other, it);
    } else if FansOut(env, n) {
      IteratorsAgree(env, other, n);
    } else {
      FreeNodesAgree(env, other, n);
    }
  }

  lemma EveryResultAgrees(env: Env, other: Env, n: NodeId)
    requires TwoOrders(env, other) && AllReady(env) && AllReady(other) && Unscoped(env, n)
    ensures SameResult(SeqRun(env, |env.order|), SeqRun(other, |other.order|), n)
  {
    if FansOut(env, n) {
      IteratorsAgree(env, other, n);
    } else {
      FreeNodesAgree(env, other, n);
    }
  }

  lemma OutputsAreNodes(env: Env)
    requires ValidEnv(env) && !env.failFast
    ensures SeqRun(env, |env.order|).outputs.Keys <= Nodes(env)
  {
    SequentialRunLaws(env);
    forall n | n in SeqRun(env, |env.order|).outputs ensures n in Nodes(env) {
      assert Is(SeqRun(env, |env.order|), n, SUCCEEDED) || Is(SeqRun(env, |env.order|), n, FAILED);
    }
  }

  /** Continue-on-error, with iterators: in any two orders in which every scope's outside inputs come
      before its iterator, the final outputs of all nodes are the same, the results of all nodes outside
      scopes are the same, and a fan-out has a failed member in one order exactly when in the other. */
  lemma ReadyOrderDoesNotMatter(env: Env, other: Env)
    requires TwoOrders(env, other) && AllReady(env) && AllReady(other)
    ensures var s, s' := SeqRun(env, |env.order|), SeqRun(other, |other.order|);
            && s.outputs == s'.outputs
            && (forall n :: Unscoped(env, n) ==> SameResult(s, s', n))
            && (forall it :: FansOut(env, it) ==> ScopeAgrees(env, s, s', it))
  {
    var s, s' := SeqRun(env, |env.order|), SeqRun(other, |other.order|);
    OutputsAreNodes(env);
    OutputsAreNodes(other);
    forall n | n in Nodes(env) ensures SameAt(s.outputs, s'.outputs, n) {
      EveryOutputAgrees(env, other, n);
    }
    forall n | Unscoped(env, n) ensures SameResult(s, s', n) {
      EveryResultAgrees(env, other, n);
    }
    forall it | FansOut(env, it) ensures ScopeAgrees(env, s, s', it) {
      IteratorsAgree(env, other, it);
    }
    SameView(s.outputs, s'.outputs, Nodes(env));
  }

  lemma SameView(v: View, w: View, nodes: set<NodeId>)
    requires v.Keys <= nodes && w.Keys <= nodes && forall n :: n in nodes ==> SameAt(v, w, n)
    ensures v == w
  {
    assert forall n :: n in v ==> SameAt(v, w, n);
  }
}
