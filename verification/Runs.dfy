/** Whole runs of the executor: every turn keeps the invariant of its mode, every finished run obeys
    the laws of its mode, and when an exception escapes from a run. */
module Runs {
  import opened Wrappers
  import opened Chains
  import opened Graphs
  import opened Topo
  import opened References
  import opened Pipelines
  import opened Json
  import opened Iterators
  import opened NodeExecution
  import opened Fanout
  import opened EngineModel
  import opened FailFast
  import opened ContinueOnError
  import opened Modes
  import opened Meaning

  // ---------------------------------------------------------------- fan-outs in both modes

  /** Fail-fast: whatever the interleaving, a fan-out keeps the run's invariant. */
  lemma FailFastFanout(env: Env, k: nat, s: Snapshot, s': Snapshot, abort': bool)
    requires ValidEnv(env) && env.failFast && k < |env.order| && env.order[k] in Nodes(env)
    requires Below(env, env.order[k]) <= Nodes(env)
    requires FansOut(env, env.order[k]) && env.order[k] !in s.results
    requires FailFastOk(env, k, s, false) && FanoutStep(env, s, env.order[k], s', abort')
    ensures FailFastOk(env, k + 1, s', abort')
  {
    var it := env.order[k];
    match PlanOf(env.rt, env.p, it, s.outputs)
    case Err(e) =>
      PlanErrorNode(env.rt, env.p, it, s.outputs);
      PlanFailsOk(env, k, s, e);
    case Ok(plan) =>
      var job := JobOf(env, s.outputs, it, plan);
      var tasks :| TasksOk(job, tasks) && AllFinished(tasks) && (s', abort') == AfterFanout(env, s, it, plan, tasks);
      FailFastTasks(env, k, s, plan, tasks);
  }

  lemma FailFastTasks(env: Env, k: nat, s: Snapshot, plan: Plan, tasks: seq<Task>)
    requires ValidEnv(env) && env.failFast && k < |env.order| && env.order[k] in Nodes(env)
    requires Below(env, env.order[k]) <= Nodes(env) && FansOut(env, env.order[k]) && env.order[k] !in s.results
    requires FailFastOk(env, k, s, false)
    requires var job := JobOf(env, s.outputs, env.order[k], plan); ValidJob(job) && TasksOk(job, tasks)
    ensures var (s', abort) := AfterFanout(env, s, env.order[k], plan, tasks); FailFastOk(env, k + 1, s', abort)
  {
    if Failures(tasks) != [] {
      FanoutAbortsOk(env, k, s, plan, tasks);
    } else {
      FanoutJoinsOk(env, k, s, plan, tasks);
    }
  }

  /** Continue-on-error: every interleaving of a fan-out is the sequential one. */
  lemma ContinueFanout(env: Env, s: Snapshot, it: NodeId, s': Snapshot, abort': bool)
    requires ValidEnv(env) && !env.failFast && it in Nodes(env) && Below(env, it) <= Nodes(env)
    requires FansOut(env, it) && it !in s.results && FanoutStep(env, s, it, s', abort')
    ensures s' == SeqStep(env, s, it) && !abort'
  {
    match PlanOf(env.rt, env.p, it, s.outputs)
    case Err(e) =>
    case Ok(plan) =>
      var job := JobOf(env, s.outputs, it, plan);
      var tasks :| TasksOk(job, tasks) && AllFinished(tasks) && (s', abort') == AfterFanout(env, s, it, plan, tasks);
      FinishedIsSequential(job, tasks);
  }

  lemma FailFastPlain(env: Env, k: nat, s: Snapshot)
    requires env.failFast && k < |env.order| && env.order[k] in Nodes(env) && FailFastOk(env, k, s, false)
    requires env.order[k] !in s.results
    ensures var (s', abort) := AfterNode(env, s, env.order[k]); FailFastOk(env, k + 1, s', abort)
  {
    match ExecuteNode(env.rt, env.p, env.order[k], s.outputs, None)
    case Ok(outs) => PlainSucceeds(env, k, s, outs);
    case Err(e) => PlainFails(env, k, s, e);
  }

  lemma StartOk(env: Env)
    ensures FailFastOk(env, 0, NOTHING, false)
  {
    assert env.order[..0] == [];
    assert forall n, status :: !Is(NOTHING, n, status);
  }

  // ---------------------------------------------------------------- where a plain fail-fast run stops

  ghost predicate SucceededBefore(env: Env, k: nat, s: Snapshot)
    requires k <= |env.order|
  {
    forall j :: 0 <= j < k ==> Is(s, env.order[j], SUCCEEDED)
  }

  ghost predicate SkippedAfter(env: Env, a: nat, k: nat, s: Snapshot)
    requires k <= |env.order|
  {
    forall j :: a < j < k ==> Is(s, env.order[j], SKIPPED)
  }

  /** Of the first `k` nodes, those before `a` succeeded, `a` failed with the only error, and those
      after it are skipped. */
  ghost predicate StoppedAt(env: Env, k: nat, s: Snapshot, a: nat)
    requires k <= |env.order|
  {
    && a < k && SucceededBefore(env, a, s) && SkippedAfter(env, a, k, s)
    && |s.errors| == 1 && env.order[a] in s.results && s.results[env.order[a]] == FailedResult(s.errors[0])
  }

  ghost predicate PlainProgress(env: Env, k: nat, s: Snapshot, abort: bool)
    requires k <= |env.order|
  {
    && s.results.Keys == Elements(env.order[..k])
    && if abort then exists a :: StoppedAt(env, k, s, a) else s.errors == [] && SucceededBefore(env, k, s)
  }

  lemma StoppedSkips(env: Env, k: nat, s: Snapshot, s': Snapshot, a: nat)
    requires k < |env.order| && StoppedAt(env, k, s, a) && s'.errors == s.errors
    requires forall m :: m in s.results ==> m in s'.results && s'.results[m] == s.results[m]
    requires Is(s', env.order[k], SKIPPED)
    ensures StoppedAt(env, k + 1, s', a)
  {
    forall j | 0 <= j < a ensures Is(s', env.order[j], SUCCEEDED) {
      assert Is(s, env.order[j], SUCCEEDED);
    }
    forall j | a < j < k + 1 ensures Is(s', env.order[j], SKIPPED) {
      assert j < k ==> Is(s, env.order[j], SKIPPED);
    }
  }

  lemma SkippedOne(s: Snapshot, n: NodeId)
    requires n !in s.results
    ensures var s' := s.(results := SkipAll(s.results, {n}));
            && Is(s', n, SKIPPED) && s'.results.Keys == s.results.Keys + {n}
            && forall m :: m in s.results ==> m in s'.results && s'.results[m] == s.results[m]
  {
  }

  lemma ProgressSkips(env: Env, k: nat, s: Snapshot)
    requires k < |env.order| && Distinct(env.order) && PlainProgress(env, k, s, true)
    ensures PlainProgress(env, k + 1, s.(results := SkipAll(s.results, {env.order[k]})), true)
  {
    PrefixGrows(env, k);
    NotAmongFirst(env.order, k, k);
    SkippedOne(s, env.order[k]);
    var a :| StoppedAt(env, k, s, a);
    StoppedSkips(env, k, s, s.(results := SkipAll(s.results, {env.order[k]})), a);
  }

  lemma ProgressRuns(env: Env, k: nat, s: Snapshot, r: Result<Outputs, NodeError>)
    requires env.failFast && k < |env.order| && Distinct(env.order) && PlainProgress(env, k, s, false)
    ensures PlainProgress(env, k + 1, Recorded(env, s, env.order[k], r), r.Err?)
  {
    var s' := Recorded(env, s, env.order[k], r);
    PrefixGrows(env, k);
    NotAmongFirst(env.order, k, k);
    forall j | 0 <= j < k ensures Is(s', env.order[j], SUCCEEDED) {
      assert Is(s, env.order[j], SUCCEEDED);
      PositionsDiffer(env.order, j, k);
    }
    if r.Err? {
      assert StoppedAt(env, k + 1, s', k);
    }
  }

  lemma PositionsDiffer(order: seq<NodeId>, i: nat, j: nat)
    requires Distinct(order) && i < j < |order|
    ensures order[i] != order[j]
  {
  }

  lemma ProgressTurn(env: Env, k: nat, s: Snapshot, aborted: bool, s': Snapshot, abort: bool)
    requires ValidEnv(env) && env.failFast && NoIterators(env)
    requires k < |env.order| && env.order[k] in Nodes(env) && Below(env, env.order[k]) <= Nodes(env)
    requires PlainProgress(env, k, s, aborted) && TurnStep(env, env.order[k], s, aborted, s', abort)
    ensures PlainProgress(env, k + 1, s', abort)
  {
    NotAmongFirst(env.order, k, k);
    if aborted {
      ProgressSkips(env, k, s);
    } else {
      ProgressRuns(env, k, s, ExecuteNode(env.rt, env.p, env.order[k], s.outputs, None));
    }
  }

  // ---------------------------------------------------------------- turns of the main loop

  ghost predicate RunOk(env: Env, k: nat, s: Snapshot, abort: bool)
    requires ValidEnv(env) && k <= |env.order|
  {
    if env.failFast then
      && FailFastOk(env, k, s, abort) && ModesAgree(env, k, s, abort)
      && (NoIterators(env) ==> PlainProgress(env, k, s, abort))
    else s == SeqRun(env, k) && !abort
  }

  /** The laws of a finished run in its mode. */
  ghost predicate RunLaws(env: Env, s: Snapshot)
    requires ValidEnv(env)
  {
    if env.failFast then
      && FailFastLaws(env, s) && CutShort(env, s)
      && (NoIterators(env) && s.errors != [] ==> exists a :: StoppedAt(env, |env.order|, s, a))
    else s == SeqRun(env, |env.order|) && ContinueLaws(env, s)
  }

  lemma RunStarts(env: Env)
    requires ValidEnv(env)
    ensures RunOk(env, 0, NOTHING, false)
  {
    StartOk(env);
    AgreementStarts(env);
    assert env.order[..0] == [];
  }

  lemma FailFastTurn(env: Env, k: nat, s: Snapshot, aborted: bool, s': Snapshot, abort: bool)
    requires ValidEnv(env) && env.failFast && k < |env.order| && env.order[k] in Nodes(env)
    requires Below(env, env.order[k]) <= Nodes(env)
    requires FailFastOk(env, k, s, aborted) && TurnStep(env, env.order[k], s, aborted, s', abort)
    ensures FailFastOk(env, k + 1, s', abort)
  {
    if env.order[k] in s.results {
      AlreadyHasResult(env, k, s, aborted);
    } else if aborted {
      SkipAfterAbort(env, k, s);
    } else if FansOut(env, env.order[k]) {
      FailFastFanout(env, k, s, s', abort);
    } else {
      FailFastPlain(env, k, s);
    }
  }

  lemma ContinueTurn(env: Env, n: NodeId, s: Snapshot, s': Snapshot, abort: bool)
    requires ValidEnv(env) && !env.failFast && n in Nodes(env) && Below(env, n) <= Nodes(env)
    requires TurnStep(env, n, s, false, s', abort)
    ensures s' == SeqStep(env, s, n) && !abort
  {
    if n !in s.results && FansOut(env, n) {
      ContinueFanout(env, s, n, s', abort);
    }
  }

  /** Every turn keeps the invariant of its mode. */
  lemma TurnKeepsRunOk(env: Env, k: nat, s: Snapshot, aborted: bool, s': Snapshot, abort: bool)
    requires ValidEnv(env) && k < |env.order| && env.order[k] in Nodes(env) && Below(env, env.order[k]) <= Nodes(env)
    requires RunOk(env, k, s, aborted) && TurnStep(env, env.order[k], s, aborted, s', abort)
    ensures RunOk(env, k + 1, s', abort)
  {
    if env.failFast {
      FailFastTurn(env, k, s, aborted, s', abort);
      AgreeingTurn(env, k, s, aborted, s', abort);
      if NoIterators(env) {
        ProgressTurn(env, k, s, aborted, s', abort);
      }
    } else {
      ContinueTurn(env, env.order[k], s, s', abort);
    }
  }

  lemma RunEnds(env: Env, s: Snapshot, abort: bool)
    requires ValidEnv(env) && RunOk(env, |env.order|, s, abort)
    ensures RunLaws(env, s)
  {
    OrderCovers(env);
    if env.failFast {
      FailFastEnds(env, s, abort);
      AgreementEnds(env, s, abort);
    } else {
      SequentialRunLaws(env);
    }
  }

  // ---------------------------------------------------------------- runs as sequences of moments

  datatype Moment = Moment(state: Snapshot, aborted: bool)

  /** The turns of the order's nodes, for some interleaving of each fan-out. */
  ghost function Turns(env: Env): (nat, Moment, Moment) -> bool
    requires ValidEnv(env)
  {
    (k: nat, m: Moment, m': Moment) =>
      && k < |env.order| && env.order[k] in Nodes(env) && Below(env, env.order[k]) <= Nodes(env)
      && TurnStep(env, env.order[k], m.state, m.aborted, m'.state, m'.aborted)
  }

  /** The executor from its start, one turn after another. */
  ghost predicate IsEngineRun(env: Env, trace: seq<Moment>)
    requires ValidEnv(env)
  {
    0 < |trace| <= |env.order| + 1 && trace[0] == Moment(NOTHING, false) && Linked(trace, Turns(env))
  }

  lemma RunBegins(env: Env)
    requires ValidEnv(env)
    ensures IsEngineRun(env, [Moment(NOTHING, false)])
  {
  }

  lemma RunGrows(env: Env, trace: seq<Moment>, next: Moment)
    requires ValidEnv(env) && IsEngineRun(env, trace) && |trace| <= |env.order|
    requires Turns(env)(|trace| - 1, trace[|trace| - 1], next)
    ensures IsEngineRun(env, trace + [next])
  {
    LinkedSnoc(trace, Turns(env), next);
  }

  lemma TurnIs(env: Env, k: nat, m: Moment, m': Moment)
    requires ValidEnv(env) && k < |env.order| && env.order[k] in Nodes(env) && Below(env, env.order[k]) <= Nodes(env)
    requires TurnStep(env, env.order[k], m.state, m.aborted, m'.state, m'.aborted)
    ensures Turns(env)(k, m, m')
  {
  }

  lemma TurnHas(env: Env, k: nat, m: Moment, m': Moment)
    requires ValidEnv(env) && Turns(env)(k, m, m')
    ensures k < |env.order| && env.order[k] in Nodes(env) && Below(env, env.order[k]) <= Nodes(env)
    ensures TurnStep(env, env.order[k], m.state, m.aborted, m'.state, m'.aborted)
  {
  }

  /** The run has taken `k` turns and is at this moment. */
  ghost predicate RunIsAt(env: Env, trace: seq<Moment>, k: nat, m: Moment)
    requires ValidEnv(env)
  {
    IsEngineRun(env, trace) && |trace| == k + 1 && trace[k] == m
  }

  lemma RunIsAtStart(env: Env)
    requires ValidEnv(env)
    ensures RunIsAt(env, [Moment(NOTHING, false)], 0, Moment(NOTHING, false))
  {
    RunBegins(env);
  }

  lemma RunMovesOn(env: Env, trace: seq<Moment>, k: nat, m: Moment, m': Moment)
    requires ValidEnv(env) && RunIsAt(env, trace, k, m) && k < |env.order|
    requires env.order[k] in Nodes(env) && Below(env, env.order[k]) <= Nodes(env)
    requires TurnStep(env, env.order[k], m.state, m.aborted, m'.state, m'.aborted)
    ensures RunIsAt(env, trace + [m'], k + 1, m')
  {
    TurnIs(env, k, m, m');
    RunGrows(env, trace, m');
  }

  lemma RunIsOver(env: Env, trace: seq<Moment>, m: Moment)
    requires ValidEnv(env) && RunIsAt(env, trace, |env.order|, m)
    ensures RunLaws(env, m.state)
  {
    EveryRunIsLawful(env, trace);
  }

  ghost function MomentOk(env: Env): (nat, Moment) -> bool
    requires ValidEnv(env)
  {
    (k: nat, m: Moment) => k <= |env.order| && RunOk(env, k, m.state, m.aborted)
  }

  lemma TurnPreserves(env: Env, k: nat, m: Moment, m': Moment)
    requires ValidEnv(env)
    ensures Preserves(Turns(env), MomentOk(env), k, m, m')
  {
    if Turns(env)(k, m, m') && MomentOk(env)(k, m) {
      TurnHas(env, k, m, m');
      TurnKeepsRunOk(env, k, m.state, m.aborted, m'.state, m'.aborted);
    }
  }

  lemma MomentStart(env: Env)
    requires ValidEnv(env)
    ensures MomentOk(env)(0, Moment(NOTHING, false))
  {
    RunStarts(env);
  }

  /** At every moment of every run, in both modes and for every interleaving, the invariant holds. */
  lemma EveryMomentIsOk(env: Env, trace: seq<Moment>, k: nat)
    requires ValidEnv(env) && IsEngineRun(env, trace) && k < |trace|
    ensures RunOk(env, k, trace[k].state, trace[k].aborted)
  {
    MomentStart(env);
    forall j: nat, m, m' | j + 1 < |trace| ensures Preserves(Turns(env), MomentOk(env), j, m, m') {
      TurnPreserves(env, j, m, m');
    }
    LinkedKeeps(trace, Turns(env), MomentOk(env), k);
  }

  /** Every finished run obeys the laws of its mode. */
  lemma EveryRunIsLawful(env: Env, trace: seq<Moment>)
    requires ValidEnv(env) && IsEngineRun(env, trace) && |trace| == |env.order| + 1
    ensures RunLaws(env, trace[|env.order|].state)
  {
    EveryMomentIsOk(env, trace, |env.order|);
    RunEnds(env, trace[|env.order|].state, trace[|env.order|].aborted);
  }

  /** In both modes a finished run has errors exactly when the continue-on-error run has, and among its. */
  lemma LawfulErrors(env: Env, s: Snapshot)
    requires ValidEnv(env) && RunLaws(env, s)
    ensures var lenient := SeqRun(Lenient(env), |env.order|);
            (s.errors == [] <==> lenient.errors == []) && forall e :: e in s.errors ==> e in lenient.errors
  {
    if !env.failFast {
      assert Lenient(env) == env;
    }
  }

  // ---------------------------------------------------------------- runs without iterators

  /** Of the nodes in order, those before `a` give outputs, and `a` is the first that fails: the run
      has its error and no other. */
  ghost predicate StopsAtFirstFailing(env: Env, t: Table, s: Snapshot, a: nat) {
    && StoppedAt(env, |env.order|, s, a)
    && env.order[a] in t && t[env.order[a]].Fails? && s.errors == [t[env.order[a]].error]
    && forall j :: 0 <= j < a ==> env.order[j] in t && t[env.order[j]].Gives?
  }

  lemma FirstFailing(env: Env, t: Table, s: Snapshot, a: nat)
    requires ValidEnv(env) && NoIterators(env) && StoppedAt(env, |env.order|, s, a)
    requires Realises(Lenient(env), t, SeqRun(Lenient(env), |env.order|))
    requires CutFrom(env, s, SeqRun(Lenient(env), |env.order|))
    ensures StopsAtFirstFailing(env, t, s, a)
  {
    var lenient := SeqRun(Lenient(env), |env.order|);
    assert Is(s, env.order[a], FAILED);
    assert FailedAlike(env, s, lenient, env.order[a]);
    assert !InSomeScope(env, env.order[a]);
    forall j | 0 <= j < a ensures env.order[j] in t && t[env.order[j]].Gives? {
      assert Is(s, env.order[j], SUCCEEDED);
    }
  }

  /** Without iterators, a finished continue-on-error run is the meaning of its pipeline. A finished
      fail-fast run is too if nothing fails; it fails exactly when the meaning has a failing node, and
      then with the first failing node of the order: what comes before has succeeded, what comes after
      is skipped. In both modes the outputs are the meaning's. */
  lemma LawfulRunIsMeaning(env: Env, s: Snapshot)
    requires ValidEnv(env) && NoIterators(env) && RunLaws(env, s)
    ensures IsDag(env.p)
    ensures !env.failFast || s.errors == [] ==> Realises(env, MeaningTable(env.rt, env.p), s)
    ensures env.failFast ==> (s.errors == [] <==> ErrorsAlong(MeaningTable(env.rt, env.p), env.order) == [])
    ensures env.failFast && s.errors != [] ==> exists a :: StopsAtFirstFailing(env, MeaningTable(env.rt, env.p), s, a)
    ensures forall n :: n in s.outputs ==>
            n in MeaningTable(env.rt, env.p) && MeaningTable(env.rt, env.p)[n] == Gives(s.outputs[n])
  {
    EnvIsDag(env);
    TableSolves(env.rt, env.p);
    var t := MeaningTable(env.rt, env.p);
    LenientRunIsMeaning(env, t);
    RealisedOutputs(Lenient(env), t, SeqRun(Lenient(env), |env.order|));
    if env.failFast && s.errors != [] {
      var a :| StoppedAt(env, |env.order|, s, a);
      FirstFailing(env, t, s, a);
    }
  }

  lemma LenientRunIsMeaning(env: Env, t: Table)
    requires ValidEnv(env) && NoIterators(env) && IsDag(env.p) && Solves(env.rt, env.p, t)
    ensures Realises(Lenient(env), t, SeqRun(Lenient(env), |env.order|))
  {
    assert forall n :: FansOut(Lenient(env), n) <==> FansOut(env, n);
    RunIsMeaning(Lenient(env), t);
  }

  lemma RealisedOutputs(env: Env, t: Table, s: Snapshot)
    requires Realises(env, t, s)
    ensures forall n :: n in s.outputs ==> n in t && t[n] == Gives(s.outputs[n])
  {
  }

  // ---------------------------------------------------------------- exceptions that escape

  /** The error stands for an exception that nothing catches: `int` on an index it rejects, raised
      while a config is resolved, or what an iterator raises unexpectedly while it produces its values. */
  predicate Escapes(e: NodeError) {
    (e.kind.Unresolved? && e.kind.reason.MalformedIndex?) || e.kind.Unhandled?
  }

  predicate SomeEscapes(errors: seq<NodeError>) {
    exists i :: 0 <= i < |errors| && Escapes(errors[i])
  }

  /** No reference of any config has an index that `int` rejects where one can be read. */
  predicate AllWellIndexed(p: Pipeline) {
    forall i :: 0 <= i < |p.nodes| ==> WellIndexed(p.nodes[i].config)
  }

  /** A config model that keeps the field it is given and rejects a step of zero, as the iterator's does. */
  ghost predicate KeepsField(checks: ClassChecks, typeName: string) {
    forall config :: checks.validate(typeName, config).Ok? ==>
      SameField(config, checks.validate(typeName, config).value)
  }

  ghost predicate SameField(config: Value, validated: Value) {
    && FieldOf(validated) == FieldOf(config)
    && (ReadSource(validated).FromRange? ==> ReadSource(validated).step != 0)
  }

  /** Every iterator's config cannot name a field with an index that `int` rejects. */
  ghost predicate FieldsWellIndexed(rt: Runtime, p: Pipeline) {
    forall i :: 0 <= i < |p.nodes| && p.nodes[i].typeName in rt.registry && rt.registry[p.nodes[i].typeName].fanOut ==>
      FieldWellIndexed(p.nodes[i].config) && KeepsField(rt.checks, p.nodes[i].typeName)
  }

  /** Neither a reference nor an iterator's field can make `int` raise. */
  ghost predicate Tame(rt: Runtime, p: Pipeline) {
    AllWellIndexed(p) && FieldsWellIndexed(rt, p)
  }

  /** Without iterators the references decide. */
  lemma TameWithoutIterators(rt: Runtime, p: Pipeline)
    requires forall i :: 0 <= i < |p.nodes| && p.nodes[i].typeName in rt.registry ==>
              !rt.registry[p.nodes[i].typeName].fanOut
    ensures Tame(rt, p) <==> AllWellIndexed(p)
  {
  }

  lemma PreparedSourceIsCalm(rt: Runtime, p: Pipeline, n: NodeId, view: View)
    requires Tame(rt, p) && IsIterator(rt.registry, p, n) && Prepare(rt, p, n, view, None).Ok?
    ensures CalmSource(ReadSource(Prepare(rt, p, n, view, None).value.0))
  {
    var spec, ctx := SpecOf(p, n), ContextOf(rt, view, None);
    var resolved := ResolveConfig(spec.config, ctx, rt.render).value;
    assert FieldWellIndexed(spec.config) && KeepsField(rt.checks, spec.typeName);
    WellIndexedFieldStays(spec.config, ctx, rt.render);
    assert SameField(resolved, rt.checks.validate(spec.typeName, resolved).value);
  }

  lemma PlanNeverEscapes(rt: Runtime, p: Pipeline, n: NodeId, view: View)
    requires Tame(rt, p) && IsIterator(rt.registry, p, n)
    ensures PlanOf(rt, p, n, view).Err? ==> !Escapes(PlanOf(rt, p, n, view).error)
  {
    PrepareNeverEscapes(rt, p, n, view, None);
    if Prepare(rt, p, n, view, None).Ok? {
      var ready := Prepare(rt, p, n, view, None).value;
      PreparedSourceIsCalm(rt, p, n, view);
      CalmSourceNeverRaises(ReadSource(ready.0), ready.1);
    }
  }

  lemma PrepareNeverEscapes(rt: Runtime, p: Pipeline, n: NodeId, view: View, iter: Option<Iteration>)
    requires n in Ids(p.nodes) && AllWellIndexed(p)
    ensures var r := Prepare(rt, p, n, view, iter);
            r.Err? ==> !(r.error.Unresolved? && r.error.reason.MalformedIndex?) && !r.error.Unhandled?
  {
    WellIndexedNeverRaises(SpecOf(p, n).config, ContextOf(rt, view, iter), rt.render);
    GatherSucceeds(InEdges(p.edges, n), view);
  }

  lemma RunNextNeverEscapes(job: Job, i: nat, k: nat, local: View)
    requires AllWellIndexed(job.p) && i < |job.values| && k < |job.scope| && job.scope[k] in Ids(job.p.nodes)
    ensures RunNext(job, i, k, local).Err? ==> !Escapes(RunNext(job, i, k, local).error.error)
  {
    PrepareNeverEscapes(job.rt, job.p, job.scope[k], job.base + local, Some(Iteration(job.values[i], i)));
  }

  lemma IterationNeverEscapes(job: Job, i: nat)
    requires ValidJob(job) && AllWellIndexed(job.p) && i < |job.values|
    ensures IterationOf(job, i).Err? ==> !Escapes(IterationOf(job, i).error.error)
  {
    var step, like := RunStep(job, i), (f: Failure) => !Escapes(f.error);
    forall k: nat, local | k < |job.scope| ensures FailsLike(step, like, k, local) {
      RunNextNeverEscapes(job, i, k, local);
    }
    ChainErrors(step, Seed(job, i), |job.scope|, like);
  }

  lemma FailuresNeverEscape(job: Job, tasks: seq<Task>)
    requires ValidJob(job) && AllWellIndexed(job.p) && TasksOk(job, tasks) && AllFinished(tasks)
    ensures !SomeEscapes(ErrorsOf(Failures(tasks)))
  {
    ReportedFailuresAreTrue(job, tasks);
    var failures := Failures(tasks);
    forall i | 0 <= i < |failures| ensures !Escapes(ErrorsOf(failures)[i]) {
      assert failures[i] in failures;
      IterationNeverEscapes(job, failures[i].index);
    }
  }

  lemma EscapesConcat(a: seq<NodeError>, b: seq<NodeError>)
    ensures SomeEscapes(a + b) <==> SomeEscapes(a) || SomeEscapes(b)
  {
    if SomeEscapes(a) {
      var i :| 0 <= i < |a| && Escapes(a[i]);
      assert Escapes((a + b)[i]);
    }
    if SomeEscapes(b) {
      var i :| 0 <= i < |b| && Escapes(b[i]);
      assert Escapes((a + b)[|a| + i]);
    }
  }

  /** What a turn adds to the errors. */
  ghost predicate CalmStep(s: Snapshot, s': Snapshot) {
    s.errors <= s'.errors && !SomeEscapes(s'.errors[|s.errors|..])
  }

  lemma CalmPlain(env: Env, s: Snapshot, n: NodeId)
    requires n in Nodes(env) && AllWellIndexed(env.p)
    ensures CalmStep(s, AfterNode(env, s, n).0)
  {
    PrepareNeverEscapes(env.rt, env.p, n, s.outputs, None);
  }

  lemma CalmFanout(env: Env, s: Snapshot, it: NodeId, s': Snapshot, abort: bool)
    requires ValidEnv(env) && it in Nodes(env) && Below(env, it) <= Nodes(env) && Tame(env.rt, env.p)
    requires FansOut(env, it) && FanoutStep(env, s, it, s', abort)
    ensures CalmStep(s, s')
  {
    match PlanOf(env.rt, env.p, it, s.outputs)
    case Err(e) => PlanNeverEscapes(env.rt, env.p, it, s.outputs);
    case Ok(plan) =>
      var job := JobOf(env, s.outputs, it, plan);
      var tasks :| TasksOk(job, tasks) && AllFinished(tasks) && (s', abort) == AfterFanout(env, s, it, plan, tasks);
      FailuresNeverEscape(job, tasks);
      assert s'.errors == s.errors + ErrorsOf(Failures(tasks));
      assert s'.errors[|s.errors|..] == ErrorsOf(Failures(tasks));
  }

  lemma CalmTurn(env: Env, n: NodeId, s: Snapshot, aborted: bool, s': Snapshot, abort: bool)
    requires ValidEnv(env) && n in Nodes(env) && Below(env, n) <= Nodes(env) && Tame(env.rt, env.p)
    requires TurnStep(env, n, s, aborted, s', abort) && !SomeEscapes(s.errors)
    ensures !SomeEscapes(s'.errors)
  {
    if n !in s.results && !aborted {
      if FansOut(env, n) {
        CalmFanout(env, s, n, s', abort);
      } else {
        CalmPlain(env, s, n);
      }
      assert s'.errors == s.errors + s'.errors[|s.errors|..];
      EscapesConcat(s.errors, s'.errors[|s.errors|..]);
    }
  }

  ghost function Calm(): (nat, Moment) -> bool {
    (k: nat, m: Moment) => !SomeEscapes(m.state.errors)
  }

  lemma CalmPreserved(env: Env, k: nat, m: Moment, m': Moment)
    requires ValidEnv(env) && Tame(env.rt, env.p)
    ensures Preserves(Turns(env), Calm(), k, m, m')
  {
    if Turns(env)(k, m, m') && Calm()(k, m) {
      TurnHas(env, k, m, m');
      CalmTurn(env, env.order[k], m.state, m.aborted, m'.state, m'.aborted);
    }
  }

  /** Nothing escapes from any run of a pipeline whose references and iterator fields are all well
      indexed. */
  lemma TameRunsStayCalm(env: Env, trace: seq<Moment>, k: nat)
    requires ValidEnv(env) && IsEngineRun(env, trace) && k < |trace| && Tame(env.rt, env.p)
    ensures !SomeEscapes(trace[k].state.errors)
  {
    forall j: nat, m, m' | j + 1 < |trace| ensures Preserves(Turns(env), Calm(), j, m, m') {
      CalmPreserved(env, j, m, m');
    }
    LinkedKeeps(trace, Turns(env), Calm(), k);
  }

  ghost function SeqErrors(env: Env): nat -> seq<NodeError>
    requires ValidEnv(env)
  {
    (k: nat) => if k <= |env.order| then SeqRun(env, k).errors else []
  }

  lemma SeqErrorsGrow(env: Env, k: nat)
    requires ValidEnv(env) && !env.failFast && k < |env.order|
    ensures GrowsAt(SeqErrors(env), k)
  {
    RunExtendsAt(env, k);
  }

  lemma ErrorsStay(env: Env, j: nat, k: nat)
    requires ValidEnv(env) && !env.failFast && j <= k <= |env.order|
    ensures SeqRun(env, j).errors <= SeqRun(env, k).errors
  {
    forall m: nat | j <= m < k ensures GrowsAt(SeqErrors(env), m) {
      SeqErrorsGrow(env, m);
    }
    PrefixesGrow(SeqErrors(env), j, k);
  }

  lemma EscapesWithin(a: seq<NodeError>, b: seq<NodeError>)
    requires SomeEscapes(a) && forall e :: e in a ==> e in b
    ensures SomeEscapes(b)
  {
    var i :| 0 <= i < |a| && Escapes(a[i]);
    assert a[i] in b;
  }

  /** What escapes at some moment of a run, in either mode, escapes from the continue-on-error run. */
  lemma EscapeIsLenient(env: Env, trace: seq<Moment>, k: nat)
    requires ValidEnv(env) && IsEngineRun(env, trace) && k < |trace| && SomeEscapes(trace[k].state.errors)
    ensures SomeEscapes(SeqRun(Lenient(env), |env.order|).errors)
  {
    EveryMomentIsOk(env, trace, k);
    var now, end := SeqRun(Lenient(env), k), SeqRun(Lenient(env), |env.order|);
    if !env.failFast {
      assert Lenient(env) == env;
    }
    EscapesWithin(trace[k].state.errors, now.errors);
    ErrorsStay(Lenient(env), k, |env.order|);
    PrefixIn(now.errors, end.errors);
    EscapesWithin(now.errors, end.errors);
  }
}
