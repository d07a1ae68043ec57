/** Fail-fast and continue-on-error compared. A fail-fast run is a continue-on-error run cut short
    at the first failure: it fails exactly when the other would, and what it has computed by then is
    what the other computes. */
module Modes {
  import opened Wrappers
  import opened Chains
  import opened Graphs
  import opened NodeExecution
  import opened Fanout
  import opened EngineModel
  import opened FailFast
  import opened ContinueOnError

  /** The same run with `continue_on_error`. */
  function Lenient(env: Env): Env {
    env.(failFast := false)
  }

  // ---------------------------------------------------------------- iterations do not know the mode

  lemma IterationSame(job: Job, i: nat)
    requires ValidJob(job) && i < |job.values|
    ensures IterationOf(job, i) == IterationOf(job.(failFast := false), i)
  {
    var other := job.(failFast := false);
    forall k: nat, local | k < |job.scope| ensures SameStep(RunStep(job, i), RunStep(other, i), k, local) {}
    ChainSame(RunStep(job, i), RunStep(other, i), Seed(job, i), |job.scope|);
  }

  lemma SequentialSame(job: Job)
    requires ValidJob(job)
    ensures Sequential(job) == Sequential(job.(failFast := false))
  {
    forall i | 0 <= i < |job.values| ensures Settled(job, i) == Settled(job.(failFast := false), i) {
      IterationSame(job, i);
    }
  }

  lemma SequentialIsFinished(job: Job)
    requires ValidJob(job)
    ensures TasksOk(job, Sequential(job)) && AllFinished(Sequential(job))
  {
    var tasks := Sequential(job);
    assert InFlight(tasks) == {};
    forall i | 0 <= i < |tasks| ensures TaskOk(job, tasks, i) {
      assert tasks[i] == Settled(job, i);
    }
  }

  /** A fan-out has failures to report exactly when its sequential execution has; without any, it is
      the sequential execution. */
  lemma SameFailing(job: Job, tasks: seq<Task>)
    requires ValidJob(job) && TasksOk(job, tasks) && AllFinished(tasks)
    ensures Failures(tasks) != [] <==> Failures(Sequential(job)) != []
    ensures Failures(tasks) == [] ==> tasks == Sequential(job)
  {
    SequentialIsFinished(job);
    ReportedFailuresAreTrue(job, tasks);
    ReportedFailuresAreTrue(job, Sequential(job));
    if Failures(tasks) == [] {
      FinishedIsSequential(job, tasks);
    }
  }

  /** What a fan-out reports, its sequential execution reports too. */
  lemma FailuresAmong(job: Job, tasks: seq<Task>, f: Failure)
    requires ValidJob(job) && TasksOk(job, tasks) && AllFinished(tasks) && f in Failures(tasks)
    ensures f in Failures(Sequential(job))
  {
    ReportedFailuresAreTrue(job, tasks);
    SequentialIsFinished(job);
    TasksIndexed(job, Sequential(job));
    FailuresAre(Sequential(job));
    assert Sequential(job)[f.index] == Settled(job, f.index);
  }

  // ---------------------------------------------------------------- one turn

  /** A later state of a run: errors, outputs and results other than skips stay. */
  ghost predicate Extends(s: Snapshot, s': Snapshot) {
    && s.errors <= s'.errors
    && (forall n :: n in s.outputs ==> n in s'.outputs && s'.outputs[n] == s.outputs[n])
    && (forall n :: n in s.results && !Is(s, n, SKIPPED) ==> n in s'.results && s'.results[n] == s.results[n])
  }

  /** What a strict run has is what the lenient run has: its outputs, its successes, its errors, and
      its failed node; outside scopes even that node's result. */
  ghost predicate CutFrom(env: Env, s: Snapshot, lenient: Snapshot) {
    && (forall n :: n in s.outputs ==> n in lenient.outputs && lenient.outputs[n] == s.outputs[n])
    && (forall n :: Is(s, n, SUCCEEDED) ==> n in lenient.results && lenient.results[n] == s.results[n])
    && (forall e :: e in s.errors ==> e in lenient.errors)
    && (forall n :: Is(s, n, FAILED) ==> FailedAlike(env, s, lenient, n))
  }

  ghost predicate FailedAlike(env: Env, s: Snapshot, lenient: Snapshot, n: NodeId) {
    Is(lenient, n, FAILED) && (!InSomeScope(env, n) ==> n in s.results && lenient.results[n] == s.results[n])
  }

  /** The lenient run after the same turn, compared with the strict one. */
  ghost predicate TurnAgrees(env: Env, s: Snapshot, s': Snapshot, abort: bool, lenient: Snapshot) {
    if abort then lenient.errors != [] && (Extends(s, lenient) ==> CutFrom(env, s', lenient)) else s' == lenient
  }

  /** One node fails and others are skipped, in a state the lenient one extends. */
  lemma FailureCut(env: Env, s: Snapshot, n: NodeId, e: NodeError, skipped: set<NodeId>, errors: seq<NodeError>,
                   lenient: Snapshot)
    requires Extends(s, lenient) && n !in s.results && Is(lenient, n, FAILED)
    requires !InSomeScope(env, n) ==> lenient.results[n] == FailedResult(e)
    requires forall x :: x in errors ==> x in lenient.errors
    ensures CutFrom(env, Snapshot(s.outputs, SkipAll(s.results[n := FailedResult(e)], skipped), errors), lenient)
  {
  }

  lemma PrefixIn(a: seq<NodeError>, b: seq<NodeError>)
    requires a <= b
    ensures forall e :: e in a ==> e in b
  {
    forall e | e in a ensures e in b {
      var i :| 0 <= i < |a| && a[i] == e;
      assert b[i] == e;
    }
  }

  lemma MemberSame(env: Env, it: NodeId, plan: Plan, tasks: seq<Task>, m: NodeId)
    requires m in Nodes(env) && |tasks| == |plan.values|
    ensures MemberOutputs(env, plan, tasks, m) == MemberOutputs(Lenient(env), plan, tasks, m)
    ensures MemberResult(env, it, plan, tasks, m) == MemberResult(Lenient(env), it, plan, tasks, m)
  {
  }

  lemma OutputsSame(env: Env, it: NodeId, plan: Plan, tasks: seq<Task>, members: set<NodeId>)
    requires members <= Nodes(env) && |tasks| == |plan.values|
    ensures AllOutputs(env, plan, tasks, members) == AllOutputs(Lenient(env), plan, tasks, members)
  {
    forall m | m in members ensures MemberOutputs(env, plan, tasks, m) == MemberOutputs(Lenient(env), plan, tasks, m) {
      MemberSame(env, it, plan, tasks, m);
    }
  }

  lemma ResultsSame(env: Env, it: NodeId, plan: Plan, tasks: seq<Task>, members: set<NodeId>)
    requires members <= Nodes(env) && |tasks| == |plan.values|
    ensures AllResults(env, it, plan, tasks, members) == AllResults(Lenient(env), it, plan, tasks, members)
  {
    forall m | m in members
      ensures MemberResult(env, it, plan, tasks, m) == MemberResult(Lenient(env), it, plan, tasks, m) {
      MemberSame(env, it, plan, tasks, m);
    }
  }

  lemma JoinsSame(env: Env, s: Snapshot, it: NodeId, plan: Plan, tasks: seq<Task>)
    requires it in Nodes(env) && Below(env, it) <= Nodes(env) && |tasks| == |plan.values|
    ensures FanoutJoins(env, s, it, plan, tasks) == FanoutJoins(Lenient(env), s, it, plan, tasks)
  {
    OutputsSame(env, it, plan, tasks, {it} + Below(env, it));
    ResultsSame(env, it, plan, tasks, {it} + Below(env, it));
  }

  lemma JoinAgrees(env: Env, s: Snapshot, it: NodeId, plan: Plan, tasks: seq<Task>)
    requires ValidEnv(env) && env.failFast && it in Nodes(env) && Below(env, it) <= Nodes(env)
    requires var job := JobOf(env, s.outputs, it, plan); ValidJob(job) && TasksOk(job, tasks) && AllFinished(tasks)
    requires PlanOf(env.rt, env.p, it, s.outputs) == Ok(plan)
    requires FansOut(env, it) && it !in s.results && {it} + Below(env, it) !! s.results.Keys
    ensures var (s', abort) := AfterFanout(env, s, it, plan, tasks);
            TurnAgrees(env, s, s', abort, SeqFanout(Lenient(env), s, it))
  {
    var job := JobOf(env, s.outputs, it, plan);
    SameFailing(job, tasks);
    SequentialSame(job);
    assert JobOf(Lenient(env), s.outputs, it, plan) == job.(failFast := false);
    JoinsSame(env, s, it, plan, Sequential(job));
    var lenient := SeqFanout(Lenient(env), s, it);
    assert lenient == FanoutJoins(env, s, it, plan, Sequential(job));
    if Failures(tasks) != [] && Extends(s, lenient) {
      AbortCut(env, s, it, plan, tasks, lenient);
    }
  }

  lemma AbortCut(env: Env, s: Snapshot, it: NodeId, plan: Plan, tasks: seq<Task>, lenient: Snapshot)
    requires it in Nodes(env) && Below(env, it) <= Nodes(env) && FansOut(env, it)
    requires {it} + Below(env, it) !! s.results.Keys
    requires var job := JobOf(env, s.outputs, it, plan);
             && ValidJob(job) && TasksOk(job, tasks) && AllFinished(tasks)
                && (forall n :: n in job.scope ==> n in Below(env, it))
             && lenient == FanoutJoins(env, s, it, plan, Sequential(job))
    requires Failures(tasks) != [] && Extends(s, lenient)
    ensures CutFrom(env, FanoutAborts(env, s, it, tasks), lenient)
  {
    var job := JobOf(env, s.outputs, it, plan);
    var reported, all := Failures(tasks), Failures(Sequential(job));
    JoinsAre(env, s, it, plan, Sequential(job));
    FirstFailure(job, tasks);
    assert reported[0] in reported;
    forall f | f in reported ensures f in all {
      FailuresAmong(job, tasks, f);
    }
    BlamedAlike(s, lenient, {it} + Below(env, it), all, reported[0]);
    assert InSomeScope(env, reported[0].node);
    ReportedIn(s.errors, reported, all, lenient.errors);
    FailureCut(env, s, reported[0].node, reported[0].error, {it} + Below(env, it), s.errors + ErrorsOf(reported),
        lenient);
  }

  /** The node of a reported failure fails in the join. */
  lemma BlamedAlike(s: Snapshot, lenient: Snapshot, members: set<NodeId>, all: seq<Failure>, f: Failure)
    requires Joined(s, lenient, members, all) && f in all && f.node in members
    ensures Is(lenient, f.node, FAILED)
  {
    FirstErrorIs(all, f.node);
    assert ResultFor(lenient.results[f.node], all, f.node);
  }

  lemma ReportedIn(errors: seq<NodeError>, reported: seq<Failure>, all: seq<Failure>, lenient: seq<NodeError>)
    requires (forall f :: f in reported ==> f in all) && lenient == errors + ErrorsOf(all)
    ensures forall e :: e in errors + ErrorsOf(reported) ==> e in lenient
  {
    forall e | e in errors + ErrorsOf(reported) ensures e in lenient {
      if e !in errors {
        var i :| 0 <= i < |reported| && ErrorsOf(reported)[i] == e;
        assert reported[i] in reported;
        ErrorInErrors(all, reported[i]);
      }
    }
  }

  lemma FanoutAgrees(env: Env, s: Snapshot, it: NodeId, s': Snapshot, abort: bool)
    requires ValidEnv(env) && env.failFast && it in Nodes(env) && Below(env, it) <= Nodes(env)
    requires FansOut(env, it) && it !in Below(env, it) && {it} + Below(env, it) !! s.results.Keys
    requires FanoutStep(env, s, it, s', abort)
    ensures TurnAgrees(env, s, s', abort, SeqFanout(Lenient(env), s, it))
  {
    match PlanOf(env.rt, env.p, it, s.outputs)
    case Err(e) => PlanFailsAgrees(env, s, it, e);
    case Ok(plan) =>
      JobIsValid(env, s.outputs, it, plan);
      var job := JobOf(env, s.outputs, it, plan);
      var tasks :| TasksOk(job, tasks) && AllFinished(tasks) && (s', abort) == AfterFanout(env, s, it, plan, tasks);
      JoinAgrees(env, s, it, plan, tasks);
  }

  lemma PlanFailsAgrees(env: Env, s: Snapshot, it: NodeId, e: NodeError)
    requires it !in s.results && it !in Below(env, it)
    ensures TurnAgrees(env, s, PlanFails(env, s, it, e), true, PlanFails(Lenient(env), s, it, e))
  {
    var lenient := PlanFails(Lenient(env), s, it, e);
    if Extends(s, lenient) {
      FailureCut(env, s, it, e, Below(env, it), s.errors + [e], lenient);
    }
  }

  lemma NodeFailsAgrees(env: Env, s: Snapshot, n: NodeId, e: NodeError)
    requires env.failFast && n !in s.results && n !in Below(env, n)
    ensures TurnAgrees(env, s, NodeFails(env, s, n, e), true, NodeFails(Lenient(env), s, n, e))
  {
    var lenient := NodeFails(Lenient(env), s, n, e);
    if Extends(s, lenient) {
      FailureCut(env, s, n, e, {}, s.errors + [e], lenient);
      assert SkipAll(s.results[n := FailedResult(e)], {}) == s.results[n := FailedResult(e)];
    }
  }

  lemma PlainAgrees(env: Env, s: Snapshot, n: NodeId)
    requires env.failFast && n in Nodes(env) && n !in s.results && n !in Below(env, n)
    ensures var (s', abort) := AfterNode(env, s, n); TurnAgrees(env, s, s', abort, AfterNode(Lenient(env), s, n).0)
  {
    match ExecuteNode(env.rt, env.p, n, s.outputs, None)
    case Ok(outputs) =>
    case Err(e) => NodeFailsAgrees(env, s, n, e);
  }

  lemma LiveTurnAgrees(env: Env, n: NodeId, s: Snapshot, s': Snapshot, abort: bool)
    requires ValidEnv(env) && env.failFast && n in Nodes(env) && Below(env, n) <= Nodes(env) && n !in Below(env, n)
    requires FansOut(env, n) && n !in s.results ==> {n} + Below(env, n) !! s.results.Keys
    requires TurnStep(env, n, s, false, s', abort)
    ensures TurnAgrees(env, s, s', abort, SeqStep(Lenient(env), s, n))
  {
    if n in s.results {
    } else if FansOut(env, n) {
      FanoutAgrees(env, s, n, s', abort);
    } else {
      PlainAgrees(env, s, n);
    }
  }

  // ---------------------------------------------------------------- lenient runs only grow

  /** No member of a fan-out about to join has outputs, or a result other than a skip. */
  ghost predicate Unfinished(s: Snapshot, members: set<NodeId>) {
    && members !! s.outputs.Keys
    && forall m :: m in members && m in s.results ==> Is(s, m, SKIPPED)
  }

  lemma MembersAreUnfinished(env: Env, done: set<NodeId>, s: Snapshot, it: NodeId)
    requires ContinueOk(env, done, s) && Front(env, done, it) && it !in s.results && FansOut(env, it)
    ensures Unfinished(s, {it} + Below(env, it))
  {
    forall m | m in {it} + Below(env, it) ensures m !in s.outputs && (m in s.results ==> Is(s, m, SKIPPED)) {
      if m in Below(env, it) && m in s.results {
        EarlyScopeIsSkipped(env, done, s, it, it, m);
      }
    }
  }

  lemma JoinedExtends(s: Snapshot, s': Snapshot, members: set<NodeId>, failures: seq<Failure>)
    requires Joined(s, s', members, failures) && Unfinished(s, members)
    ensures Extends(s, s')
  {
  }

  lemma JoinExtends(env: Env, s: Snapshot, it: NodeId, plan: Plan, tasks: seq<Task>)
    requires it in Nodes(env) && Below(env, it) <= Nodes(env) && |tasks| == |plan.values|
    requires Unfinished(s, {it} + Below(env, it))
    ensures Extends(s, FanoutJoins(env, s, it, plan, tasks))
  {
    JoinsAre(env, s, it, plan, tasks);
    JoinedExtends(s, FanoutJoins(env, s, it, plan, tasks), {it} + Below(env, it), Failures(tasks));
  }

  lemma PlanFailsExtends(env: Env, s: Snapshot, it: NodeId, e: NodeError)
    requires it !in s.results
    ensures Extends(s, PlanFails(env, s, it, e))
  {
  }

  lemma SeqFanoutJoins(env: Env, s: Snapshot, it: NodeId, plan: Plan) returns (tasks: seq<Task>)
    requires ValidEnv(env) && it in Nodes(env) && Below(env, it) <= Nodes(env)
    requires PlanOf(env.rt, env.p, it, s.outputs) == Ok(plan)
    ensures |tasks| == |plan.values| && SeqFanout(env, s, it) == FanoutJoins(env, s, it, plan, tasks)
  {
    JobIsValid(env, s.outputs, it, plan);
    tasks := Sequential(JobOf(env, s.outputs, it, plan));
  }

  lemma FanoutExtends(env: Env, s: Snapshot, it: NodeId)
    requires ValidEnv(env) && it in Nodes(env) && Below(env, it) <= Nodes(env) && it !in s.results
    requires Unfinished(s, {it} + Below(env, it))
    ensures Extends(s, SeqFanout(env, s, it))
  {
    match PlanOf(env.rt, env.p, it, s.outputs)
    case Err(e) => PlanFailsExtends(env, s, it, e);
    case Ok(plan) =>
      var tasks := SeqFanoutJoins(env, s, it, plan);
      JoinExtends(env, s, it, plan, tasks);
  }

  lemma RecordedExtends(env: Env, s: Snapshot, n: NodeId, r: Result<Outputs, NodeError>)
    requires n !in s.outputs && n !in s.results
    ensures Extends(s, Recorded(env, s, n, r))
  {
  }

  lemma StepExtends(env: Env, done: set<NodeId>, s: Snapshot, n: NodeId)
    requires ValidEnv(env) && ContinueOk(env, done, s) && Front(env, done, n)
    ensures Extends(s, SeqStep(env, s, n))
  {
    if n in s.results {
    } else if FansOut(env, n) {
      MembersAreUnfinished(env, done, s, n);
      FanoutExtends(env, s, n);
    } else {
      assert n !in s.outputs;
      RecordedExtends(env, s, n, ExecuteNode(env.rt, env.p, n, s.outputs, None));
    }
  }

  lemma RunExtendsAt(env: Env, k: nat)
    requires ValidEnv(env) && !env.failFast && k < |env.order|
    ensures Extends(SeqRun(env, k), SeqRun(env, k + 1))
  {
    OrderCovers(env);
    SeqRunOk(env, k);
    FrontOf(env, k);
    StepExtends(env, Elements(env.order[..k]), SeqRun(env, k), env.order[k]);
    SeqRunNext(env, k, SeqRun(env, k));
  }

  // ---------------------------------------------------------------- whole runs

  /** Until the abort the two runs are the same; after it the strict run is the lenient one cut short. */
  ghost predicate ModesAgree(env: Env, k: nat, s: Snapshot, abort: bool)
    requires ValidEnv(env) && k <= |env.order|
  {
    var lenient := SeqRun(Lenient(env), k);
    if abort then lenient.errors != [] && CutFrom(env, s, lenient) else s == lenient
  }

  lemma AgreementStarts(env: Env)
    requires ValidEnv(env)
    ensures ModesAgree(env, 0, NOTHING, false)
  {
  }

  lemma CutExtends(env: Env, s: Snapshot, lenient: Snapshot, later: Snapshot)
    requires CutFrom(env, s, lenient) && Extends(lenient, later)
    ensures CutFrom(env, s, later)
  {
    PrefixIn(lenient.errors, later.errors);
    forall n | Is(s, n, FAILED) ensures FailedAlike(env, s, later, n) {
      assert FailedAlike(env, s, lenient, n);
    }
  }

  lemma SkipsCut(env: Env, s: Snapshot, lenient: Snapshot, nodes: set<NodeId>)
    requires CutFrom(env, s, lenient)
    ensures CutFrom(env, s.(results := SkipAll(s.results, nodes)), lenient)
  {
    var s' := s.(results := SkipAll(s.results, nodes));
    forall n | Is(s', n, FAILED) ensures FailedAlike(env, s', lenient, n) {
      assert FailedAlike(env, s, lenient, n);
    }
  }

  /** A turn after the abort. */
  lemma AbortedTurn(env: Env, k: nat, s: Snapshot, s': Snapshot)
    requires ValidEnv(env) && k < |env.order|
    requires ModesAgree(env, k, s, true) && (s' == s || s' == s.(results := SkipAll(s.results, {env.order[k]})))
    ensures ModesAgree(env, k + 1, s', true)
  {
    RunExtendsAt(Lenient(env), k);
    CutExtends(env, s, SeqRun(Lenient(env), k), SeqRun(Lenient(env), k + 1));
    SkipsCut(env, s, SeqRun(Lenient(env), k + 1), {env.order[k]});
  }

  lemma ReachedUnfinished(env: Env, k: nat, s: Snapshot)
    requires ValidEnv(env) && k < |env.order| && FailFastOk(env, k, s, false) && FansOut(env, env.order[k])
    requires env.order[k] !in s.results
    ensures {env.order[k]} + Below(env, env.order[k]) !! s.results.Keys
  {
    forall m | m in Below(env, env.order[k]) ensures m !in s.results {
      ScopeUnreached(env, k, m);
    }
  }

  lemma AgreeingTurn(env: Env, k: nat, s: Snapshot, aborted: bool, s': Snapshot, abort: bool)
    requires ValidEnv(env) && env.failFast && k < |env.order| && env.order[k] in Nodes(env)
    requires Below(env, env.order[k]) <= Nodes(env)
    requires FailFastOk(env, k, s, aborted)
    requires ModesAgree(env, k, s, aborted) && TurnStep(env, env.order[k], s, aborted, s', abort)
    ensures ModesAgree(env, k + 1, s', abort)
  {
    if aborted {
      AbortedTurn(env, k, s, s');
    } else {
      RunExtendsAt(Lenient(env), k);
      BelowNodes(env, env.order[k]);
      if FansOut(env, env.order[k]) && env.order[k] !in s.results {
        ReachedUnfinished(env, k, s);
      }
      LiveTurnAgrees(env, env.order[k], s, s', abort);
      SeqRunNext(Lenient(env), k, s);
    }
  }

  /** The strict run against the lenient one: it fails exactly when the lenient one does; if neither
      does they are equal; in any case what it has is what the lenient one has. */
  ghost predicate CutShort(env: Env, s: Snapshot)
    requires ValidEnv(env)
  {
    var lenient := SeqRun(Lenient(env), |env.order|);
    && (s.errors == [] <==> lenient.errors == [])
    && (s.errors == [] ==> s == lenient)
    && CutFrom(env, s, lenient)
  }

  lemma CutFromItself(env: Env, s: Snapshot)
    ensures CutFrom(env, s, s)
  {
  }

  lemma AgreementEnds(env: Env, s: Snapshot, abort: bool)
    requires ValidEnv(env) && FailFastOk(env, |env.order|, s, abort) && ModesAgree(env, |env.order|, s, abort)
    ensures CutShort(env, s)
  {
    if abort {
      var f :| Is(s, f, FAILED);
      assert SomeNodeFailed(s);
    } else {
      CutFromItself(env, s);
    }
  }
}
