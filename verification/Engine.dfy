/** The executor: the mutable run state, its steps, and `execute_pipeline`. */
module Engine {
  import opened Wrappers
  import opened Graphs
  import opened Topo
  import opened Json
  import opened Pipelines
  import opened NodeExecution
  import opened Fanout
  import opened EngineModel
  import opened ContinueOnError
  import opened Modes
  import opened Runs

  // ---------------------------------------------------------------- the run state

  class RunState {
    var outputs: View
    var results: map<NodeId, NodeResult>
    var errors: seq<NodeError>

    ghost function Snap(): Snapshot
      reads this
    {
      Snapshot(outputs, results, errors)
    }

    constructor ()
      ensures Snap() == NOTHING
    {
      outputs, results, errors := map[], map[], [];
    }

    /** `_skip`. */
    method SkipNodes(nodes: set<NodeId>)
      modifies this
      ensures Snap() == old(Snap()).(results := SkipAll(old(results), nodes))
    {
      var todo := nodes;
      while todo != {}
        invariant todo <= nodes && outputs == old(outputs) && errors == old(errors)
        invariant results == SkipAll(old(results), nodes - todo)
        decreases todo
      {
        var n :| n in todo;
        if n !in results {
          results := results[n := SKIPPED_RESULT];
        }
        todo := todo - {n};
      }
      assert nodes - todo == nodes;
    }

    /** A plain node's turn. */
    method RunNode(env: Env, n: NodeId) returns (abort: bool)
      requires n in Nodes(env)
      modifies this
      ensures (Snap(), abort) == AfterNode(env, old(Snap()), n)
    {
      var r := ExecuteNode(env.rt, env.p, n, outputs, None);
      match r
      case Ok(outs) =>
        outputs := outputs[n := outs];
        results := results[n := NodeResult(SUCCEEDED, Some(|Primary(env.rt, outs)|), None, None)];
        abort := false;
      case Err(e) =>
        errors := errors + [e];
        results := results[n := FailedResult(e)];
        if !env.failFast {
          var below := FindDescendants(env.p.edges, n);
          SkipNodes(below);
        }
        abort := env.failFast;
    }

    /** Combine the outputs of one member of a fan-out and record its result. */
    method JoinMember(env: Env, it: NodeId, plan: Plan, tasks: seq<Task>, m: NodeId)
      requires m in Nodes(env) && |tasks| == |plan.values|
      modifies this
      ensures outputs == old(outputs)[m := MemberOutputs(env, plan, tasks, m)]
      ensures results == old(results)[m := MemberResult(env, it, plan, tasks, m)]
      ensures errors == old(errors)
    {
      var combined, participations := FanInMember(plan.values, plan.fanIn, DeclaredPorts(env, m), tasks, m);
      var e := FirstErrorFor(Failures(tasks), m);
      outputs := outputs[m := combined];
      results := results[m := NodeResult(if e.Some? then FAILED else SUCCEEDED,
                                         Some(|Primary(env.rt, combined)|),
                                         Some(if m == it then |plan.values| else participations),
                                         e)];
    }

    /** The fan-in over the iterator and its scope. */
    method JoinMembers(env: Env, it: NodeId, plan: Plan, tasks: seq<Task>, members: seq<NodeId>)
      requires Elements(members) <= Nodes(env) && |tasks| == |plan.values|
      modifies this
      ensures outputs == old(outputs) + AllOutputs(env, plan, tasks, Elements(members))
      ensures results == old(results) + AllResults(env, it, plan, tasks, Elements(members))
      ensures errors == old(errors)
    {
      for i := 0 to |members|
        invariant Elements(members[..i]) <= Nodes(env) && errors == old(errors)
        invariant outputs == old(outputs) + AllOutputs(env, plan, tasks, Elements(members[..i]))
        invariant results == old(results) + AllResults(env, it, plan, tasks, Elements(members[..i]))
      {
        assert members[i] in Elements(members);
        PrefixElements(members, i);
        ExtendOutputs(env, plan, tasks, old(outputs), Elements(members[..i]), members[i]);
        ExtendResults(env, it, plan, tasks, old(results), Elements(members[..i]), members[i]);
        JoinMember(env, it, plan, tasks, members[i]);
      }
      assert members[..|members|] == members;
    }

    /** `_run_iterator`: whatever the interleaving of the iterations, one of the outcomes that
        `FanoutStep` describes. */
    method RunIterator(env: Env, it: NodeId) returns (abort: bool)
      requires ValidEnv(env) && it in Nodes(env) && Below(env, it) <= Nodes(env)
      modifies this
      ensures FanoutStep(env, old(Snap()), it, Snap(), abort)
    {
      var scope := FindDescendants(env.p.edges, it);
      var r := PlanOf(env.rt, env.p, it, outputs);
      match r
      case Err(e) =>
        errors := errors + [e];
        results := results[it := FailedResult(e)];
        SkipNodes(scope);
        abort := env.failFast;
      case Ok(plan) =>
        var job := Job(env.rt, env.p, outputs, it, Restrict(env.order, scope), plan.values, Cap(env, plan),
            env.failFast);
        JobIsValid(env, outputs, it, plan);
        var tasks, trace := RunIterations(job);
        abort := FinishFanout(env, it, plan, tasks, job.scope);
    }

    /** What follows the iterations: record their errors, then abort or fan in. */
    method FinishFanout(env: Env, it: NodeId, plan: Plan, tasks: seq<Task>, scope: seq<NodeId>) returns (abort: bool)
      requires it in Nodes(env) && Below(env, it) <= Nodes(env) && Elements(scope) == Below(env, it)
      requires |tasks| == |plan.values|
      modifies this
      ensures (Snap(), abort) == AfterFanout(env, old(Snap()), it, plan, tasks)
    {
      var failures := Failures(tasks);
      errors := errors + ErrorsOf(failures);
      assert Elements([it] + scope) == {it} + Below(env, it);
      if failures != [] && env.failFast {
        results := results[failures[0].node := FailedResult(failures[0].error)];
        SkipNodes(Elements([it] + scope));
        return true;
      }
      JoinMembers(env, it, plan, tasks, [it] + scope);
      return false;
    }

    /** One turn of the main loop. */
    method Turn(env: Env, n: NodeId, aborted: bool) returns (abort: bool)
      requires ValidEnv(env) && n in Nodes(env) && Below(env, n) <= Nodes(env)
      modifies this
      ensures TurnStep(env, n, old(Snap()), aborted, Snap(), abort)
    {
      abort := aborted;
      if n in results {
        return;
      }
      if aborted {
        SkipNodes({n});
        return;
      }
      if FansOut(env, n) {
        abort := RunIterator(env, n);
      } else {
        abort := RunNode(env, n);
      }
    }

    /** The next turn of a run. */
    method TurnOf(env: Env, k: nat, ghost trace: seq<Moment>, aborted: bool)
      returns (abort: bool, ghost trace': seq<Moment>)
      requires ValidEnv(env) && k < |env.order| && RunIsAt(env, trace, k, Moment(Snap(), aborted))
      modifies this
      ensures |trace'| == k + 2 && RunIsAt(env, trace', k + 1, Moment(Snap(), abort))
    {
      OrderCovers(env);
      BelowNodes(env, env.order[k]);
      ghost var before := Moment(Snap(), aborted);
      abort := Turn(env, env.order[k], aborted);
      RunMovesOn(env, trace, k, before, Moment(Snap(), abort));
      trace' := trace + [Moment(Snap(), abort)];
    }

    /** Whether the last turn raised what nothing catches. */
    method HasEscaped() returns (escaped: bool)
      ensures escaped <==> SomeEscapes(errors)
    {
      escaped := SomeEscapes(errors);
    }

    /** The main loop over the order. It ends early when an exception escapes from a turn. */
    method RunTurns(env: Env) returns (escaped: bool, aborted: bool, ghost trace: seq<Moment>)
      requires ValidEnv(env) && Snap() == NOTHING
      modifies this
      ensures trace != [] && RunIsAt(env, trace, |trace| - 1, Moment(Snap(), aborted))
      ensures escaped <==> SomeEscapes(errors)
      ensures !escaped ==> |trace| == |env.order| + 1
    {
      RunIsAtStart(env);
      escaped, aborted, trace := false, false, [Moment(Snap(), false)];
      for k := 0 to |env.order|
        invariant |trace| == k + 1 && RunIsAt(env, trace, k, Moment(Snap(), aborted))
        invariant !escaped && !SomeEscapes(errors)
      {
        aborted, trace := TurnOf(env, k, trace, aborted);
        escaped := HasEscaped();
        if escaped {
          return;
        }
      }
    }

    /** A whole run on the mutable state. */
    method Execute(env: Env) returns (escaped: bool, ghost trace: seq<Moment>)
      requires ValidEnv(env) && Snap() == NOTHING
      modifies this
      ensures trace != [] && IsEngineRun(env, trace) && trace[|trace| - 1].state == Snap()
      ensures escaped <==> SomeEscapes(errors)
      ensures !escaped ==> |trace| == |env.order| + 1 && RunLaws(env, Snap())
    {
      var aborted;
      escaped, aborted, trace := RunTurns(env);
      if !escaped {
        RunIsOver(env, trace, Moment(Snap(), aborted));
      }
    }
  }

  lemma ExtendMap<V>(base: map<NodeId, V>, small: map<NodeId, V>, big: map<NodeId, V>, m: NodeId, v: V)
    requires big.Keys == small.Keys + {m} && big[m] == v
    requires forall x :: x in small ==> big[x] == small[x]
    ensures base + big == (base + small)[m := v]
  {
  }

  lemma ExtendOutputs(env: Env, plan: Plan, tasks: seq<Task>, base: View, done: set<NodeId>, m: NodeId)
    requires done + {m} <= Nodes(env) && |tasks| == |plan.values|
    ensures base + AllOutputs(env, plan, tasks, done + {m}) ==
            (base + AllOutputs(env, plan, tasks, done))[m := MemberOutputs(env, plan, tasks, m)]
  {
    var small, big := AllOutputs(env, plan, tasks, done), AllOutputs(env, plan, tasks, done + {m});
    ExtendMap(base, small, big, m, MemberOutputs(env, plan, tasks, m));
  }

  lemma ExtendResults(env: Env, it: NodeId, plan: Plan, tasks: seq<Task>, base: map<NodeId, NodeResult>,
                      done: set<NodeId>, m: NodeId)
    requires done + {m} <= Nodes(env) && |tasks| == |plan.values|
    ensures base + AllResults(env, it, plan, tasks, done + {m}) ==
            (base + AllResults(env, it, plan, tasks, done))[m := MemberResult(env, it, plan, tasks, m)]
  {
    var small, big := AllResults(env, it, plan, tasks, done), AllResults(env, it, plan, tasks, done + {m});
    ExtendMap(base, small, big, m, MemberResult(env, it, plan, tasks, m));
  }

  lemma PrefixElements(members: seq<NodeId>, i: nat)
    requires i < |members|
    ensures Elements(members[..i + 1]) == Elements(members[..i]) + {members[i]}
  {
    assert members[..i + 1] == members[..i] + [members[i]];
  }

  // ---------------------------------------------------------------- execute_pipeline

  datatype RunStatus = RunSucceeded | RunFailed

  datatype RunResult = RunResult(status: RunStatus, results: map<NodeId, NodeResult>, errors: seq<NodeError>,
                                 outputs: map<NodeId, Records>)

  /** What the caller gets: a result, or an exception. */
  datatype Outcome = Returned(result: RunResult) | Escaped

  const PIPELINE_NODE_ID := "__pipeline__"

  /** The error that stands for an issue; issues without a node are the pipeline's. */
  function ErrorOfIssue(issue: Issue): NodeError {
    var node := if issue.NoNodes? || issue.HasCycle? || issue.UnknownEndpoint?
        || issue.node == [] then PIPELINE_NODE_ID else issue.node;
    NodeError(node, Invalid(issue), None)
  }

  /** A rejected pipeline ran nothing and fails with one error per issue, in order; the issues are
      exactly those that hold of it. */
  ghost predicate IsRejection(rt: Runtime, p: Pipeline, issues: seq<Issue>, result: RunResult) {
    && issues != [] && (forall x :: x in issues <==> IssueHolds(rt.checks, rt.registry, p, x))
    && result.status == RunFailed && result.results == map[] && result.outputs == map[]
    && |result.errors| == |issues| && forall i :: 0 <= i < |issues| ==> result.errors[i] == ErrorOfIssue(issues[i])
  }

  predicate IsTerminal(p: Pipeline, n: NodeId) {
    OutEdges(p.edges, n) == []
  }

  /** The primary records of the terminal nodes that have outputs. */
  function TerminalOutputs(rt: Runtime, p: Pipeline, outputs: View): map<NodeId, Records> {
    map n | n in outputs && IsTerminal(p, n) :: Primary(rt, outputs[n])
  }

  function ResultOfRun(rt: Runtime, p: Pipeline, s: Snapshot): RunResult {
    RunResult(if s.errors == [] then RunSucceeded else RunFailed, s.results, s.errors,
        TerminalOutputs(rt, p, s.outputs))
  }

  /** The run of an accepted pipeline: it returns what its last state says, by the laws of its mode, or
      an exception escapes, and then from the continue-on-error run too. */
  ghost predicate RunOutcome(env: Env, trace: seq<Moment>, outcome: Outcome) {
    && ValidEnv(env) && IsEngineRun(env, trace)
    && var s := trace[|trace| - 1].state;
       match outcome
       case Returned(result) =>
         |trace| == |env.order| + 1 && RunLaws(env, s) && !SomeEscapes(s.errors)
         && result == ResultOfRun(env.rt, env.p, s)
       case Escaped => SomeEscapes(s.errors) && SomeEscapes(SeqRun(Lenient(env), |env.order|).errors)
  }

  /** When its sequential execution meets an exception, a continue-on-error run raises. */
  ghost predicate RaisesAsSequential(env: Env, outcome: Outcome)
    requires ValidEnv(env)
  {
    !env.failFast ==> (outcome.Escaped? <==> SomeEscapes(SeqRun(env, |env.order|).errors))
  }

  lemma EscapedOutcome(env: Env, trace: seq<Moment>)
    requires ValidEnv(env) && IsEngineRun(env, trace) && SomeEscapes(trace[|trace| - 1].state.errors)
    ensures RunOutcome(env, trace, Escaped) && RaisesAsSequential(env, Escaped) && !Tame(env.rt, env.p)
  {
    EscapeIsLenient(env, trace, |trace| - 1);
    assert !env.failFast ==> Lenient(env) == env;
    EscapedIsWild(env, trace);
  }

  lemma EscapedIsWild(env: Env, trace: seq<Moment>)
    requires ValidEnv(env) && IsEngineRun(env, trace) && SomeEscapes(trace[|trace| - 1].state.errors)
    ensures !Tame(env.rt, env.p)
  {
    if Tame(env.rt, env.p) {
      TameRunsStayCalm(env, trace, |trace| - 1);
    }
  }

  lemma ReturnedOutcome(env: Env, trace: seq<Moment>, s: Snapshot)
    requires ValidEnv(env) && IsEngineRun(env, trace) && |trace| == |env.order| + 1 && s == trace[|trace| - 1].state
    requires RunLaws(env, s) && !SomeEscapes(s.errors)
    ensures var outcome := Returned(ResultOfRun(env.rt, env.p, s));
            RunOutcome(env, trace, outcome) && RaisesAsSequential(env, outcome)
  {
  }

  /** The run of a pipeline that passed validation. */
  method RunAccepted(env: Env) returns (outcome: Outcome, ghost trace: seq<Moment>)
    requires ValidEnv(env)
    ensures RunOutcome(env, trace, outcome) && RaisesAsSequential(env, outcome)
    ensures Tame(env.rt, env.p) ==> outcome.Returned?
  {
    var state := new RunState();
    var escaped;
    escaped, trace := state.Execute(env);
    if escaped {
      EscapedOutcome(env, trace);
      return Escaped, trace;
    }
    ReturnedOutcome(env, trace, state.Snap());
    var status := if state.errors == [] then RunSucceeded else RunFailed;
    var outputs := map n | n in state.outputs && IsTerminal(env.p, n) :: Primary(env.rt, state.outputs[n]);
    return Returned(RunResult(status, state.results, state.errors, outputs)), trace;
  }

  /** `execute_pipeline`: a rejected pipeline runs nothing and returns its issues as errors. A pipeline
      that passes runs in the least topological order; from a tame one no exception escapes, and a
      continue-on-error run raises exactly when its sequential execution meets one. */
  method ExecutePipeline(rt: Runtime, p: Pipeline, failFast: bool, maxConcurrency: nat)
    returns (outcome: Outcome, ghost issues: seq<Issue>, ghost env: Env, ghost trace: seq<Moment>)
    requires IdsNonEmpty(p) && maxConcurrency >= 1
    ensures !Runnable(rt.checks, rt.registry, p) ==> outcome.Returned? && IsRejection(rt, p, issues, outcome.result)
    ensures Runnable(rt.checks, rt.registry, p) ==>
              && env == Env(rt, p, env.order, failFast, maxConcurrency)
              && LeastTopoOrder(Ids(p.nodes), p.edges, env.order)
              && RunOutcome(env, trace, outcome) && RaisesAsSequential(env, outcome)
    ensures Tame(rt, p) ==> outcome.Returned?
  {
    env, trace := Env(rt, p, [], failFast, maxConcurrency), [];
    var found := ValidatePipeline(rt.checks, rt.registry, p);
    issues := found;
    if found != [] {
      var errors := seq(|found|, i requires 0 <= i < |found| => ErrorOfIssue(found[i]));
      return Returned(RunResult(RunFailed, map[], errors, map[])), issues, env, trace;
    }
    var topo := TopoOrder(Ids(p.nodes), p.edges);
    var run := Env(rt, p, topo.value, failFast, maxConcurrency);
    outcome, trace := RunAccepted(run);
    env := run;
  }
}
