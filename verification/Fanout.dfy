/** An iterator's fan-out: concurrent iterations as a step system, and the fan-in of their results.

    Each iteration runs the scope's nodes one after another on its own outputs, holding one of `cap`
    permits. Under fail-fast the `TaskGroup` cancels what is unfinished once some iteration has
    failed; an iteration may still run on until its cancellation takes effect. */
module Fanout {
  import opened Wrappers
  import opened Chains
  import opened Graphs
  import opened Json
  import opened References
  import opened Pipelines
  import opened NodeExecution

  /** One fan-out: the outputs available outside, the scope in topological order, the values. */
  datatype Job = Job(rt: Runtime, p: Pipeline, base: View, owner: NodeId, scope: seq<NodeId>,
                     values: seq<Value>, cap: nat, failFast: bool)

  ghost predicate ValidJob(job: Job) {
    && job.cap >= 1
    && forall k :: 0 <= k < |job.scope| ==> job.scope[k] in Ids(job.p.nodes)
  }

  datatype Failure = Failure(index: nat, node: NodeId, error: NodeError)

  // ---------------------------------------------------------------- one iteration

  /** The iterator's own record in one iteration. */
  function Seed(job: Job, i: nat): View
    requires i < |job.values|
  {
    map[job.owner := map["out" := [Dict([Entry("value", job.values[i]), Entry("index", Int(i))])]]]
  }

  /** Run the next node of an iteration on its own outputs over those from outside. */
  function RunNext(job: Job, i: nat, k: nat, local: View): Result<View, Failure>
    requires i < |job.values| && k < |job.scope| && job.scope[k] in Ids(job.p.nodes)
  {
    var n := job.scope[k];
    match ExecuteNode(job.rt, job.p, n, job.base + local, Some(Iteration(job.values[i], i)))
    case Ok(outputs) => Ok(local[n := outputs])
    case Err(e) => Err(Failure(i, n, e.(iteration := Some(i))))
  }

  /** The steps of iteration `i`: its scope's nodes in order. */
  function RunStep(job: Job, i: nat): (nat, View) -> Result<View, Failure>
    requires i < |job.values|
  {
    (k: nat, local: View) =>
      if k < |job.scope| && job.scope[k] in Ids(job.p.nodes) then RunNext(job, i, k, local)
      else Err(Failure(i, job.owner, NodeError(job.owner, Raised("no such step"), Some(i))))
  }

  /** Iteration `i` after its first `k` nodes: its own outputs, or the failure that ended it. */
  ghost function IterationUpTo(job: Job, i: nat, k: nat): Result<View, Failure>
    requires ValidJob(job) && i < |job.values| && k <= |job.scope|
  {
    Chain(RunStep(job, i), Seed(job, i), k)
  }

  /** The whole iteration, run alone. */
  ghost function IterationOf(job: Job, i: nat): Result<View, Failure>
    requires ValidJob(job) && i < |job.values|
  {
    IterationUpTo(job, i, |job.scope|)
  }

  // ---------------------------------------------------------------- the step system

  datatype Task =
    | Waiting
    | Running(pos: nat, local: View)
    | Done(local: View)
    | Failed(failure: Failure)
    | Cancelled

  predicate Finished(t: Task) {
    t.Done? || t.Failed? || t.Cancelled?
  }

  predicate SomeFailed(tasks: seq<Task>) {
    exists i :: 0 <= i < |tasks| && tasks[i].Failed?
  }

  /** The iterations holding a permit. */
  function InFlight(tasks: seq<Task>): set<int> {
    set i | 0 <= i < |tasks| && tasks[i].Running?
  }

  datatype Move = Start | Advance | Finish | Cancel

  predicate Enabled(job: Job, tasks: seq<Task>, i: nat, move: Move) {
    && i < |tasks|
    && match move
       case Start => tasks[i].Waiting? && |InFlight(tasks)| < job.cap
       case Advance => tasks[i].Running? && tasks[i].pos < |job.scope|
       case Finish => tasks[i].Running? && tasks[i].pos == |job.scope|
       case Cancel => job.failFast && SomeFailed(tasks) && !Finished(tasks[i])
  }

  function Moved(job: Job, tasks: seq<Task>, i: nat, move: Move): Task
    requires |tasks| == |job.values| && Enabled(job, tasks, i, move)
    requires move.Advance? ==> job.scope[tasks[i].pos] in Ids(job.p.nodes)
  {
    match move
    case Start => Running(0, Seed(job, i))
    case Finish => Done(tasks[i].local)
    case Cancel => Cancelled
    case Advance => Ran(tasks[i].pos, RunNext(job, i, tasks[i].pos, tasks[i].local))
  }

  /** The iteration once the node at `pos` has run. */
  function Ran(pos: nat, outcome: Result<View, Failure>): Task {
    match outcome case Ok(local) => Running(pos + 1, local) case Err(f) => Failed(f)
  }

  /** One step of one iteration. */
  ghost predicate Next(job: Job, tasks: seq<Task>, tasks': seq<Task>)
    requires ValidJob(job) && |tasks| == |job.values|
  {
    exists i: nat, move :: Enabled(job, tasks, i, move) && tasks' == tasks[i := Moved(job, tasks, i, move)]
  }

  function Begin(job: Job): seq<Task> {
    seq(|job.values|, i => Waiting)
  }

  /** A run: any interleaving of steps from the beginning. */
  ghost predicate IsRun(job: Job, trace: seq<seq<Task>>)
    requires ValidJob(job)
  {
    && trace != [] && trace[0] == Begin(job)
    && (forall k :: 0 <= k < |trace| ==> |trace[k]| == |job.values|)
    && forall k :: 0 <= k < |trace| - 1 ==> NextAt(job, trace, k)
  }

  ghost predicate NextAt(job: Job, trace: seq<seq<Task>>, k: nat)
    requires ValidJob(job) && k + 1 < |trace| && |trace[k]| == |job.values|
  {
    Next(job, trace[k], trace[k + 1])
  }

  // ---------------------------------------------------------------- what every step keeps

  /** An iteration is always where its sequential execution would be. */
  ghost predicate TaskOk(job: Job, tasks: seq<Task>, i: nat)
    requires ValidJob(job) && |tasks| == |job.values| && i < |tasks|
  {
    match tasks[i]
    case Waiting => true
    case Running(pos, local) => pos <= |job.scope| && IterationUpTo(job, i, pos) == Ok(local)
    case Done(local) => IterationOf(job, i) == Ok(local)
    case Failed(f) => IterationOf(job, i) == Err(f)
    case Cancelled => job.failFast && SomeFailed(tasks)
  }

  ghost predicate TasksOk(job: Job, tasks: seq<Task>)
    requires ValidJob(job)
  {
    && |tasks| == |job.values|
    && (forall i :: 0 <= i < |tasks| ==> TaskOk(job, tasks, i))
    && |InFlight(tasks)| <= job.cap
  }

  lemma InFlightAfter(tasks: seq<Task>, i: nat, t: Task)
    requires i < |tasks|
    ensures InFlight(tasks[i := t]) == if t.Running? then InFlight(tasks) + {i as int} else InFlight(tasks) - {i as int}
  {
  }

  lemma CapKept(job: Job, tasks: seq<Task>, i: nat, move: Move)
    requires ValidJob(job) && |tasks| == |job.values| && Enabled(job, tasks, i, move)
    requires |InFlight(tasks)| <= job.cap
    ensures |InFlight(tasks[i := Moved(job, tasks, i, move)])| <= job.cap
  {
    var t := Moved(job, tasks, i, move);
    InFlightAfter(tasks, i, t);
    if tasks[i].Running? {
      assert i in InFlight(tasks);
      assert InFlight(tasks) + {i as int} == InFlight(tasks);
    }
  }

  /** Running the next node keeps an iteration where its sequential execution would be. */
  lemma AdvanceOk(job: Job, i: nat, pos: nat, local: View)
    requires ValidJob(job) && i < |job.values| && pos < |job.scope| && IterationUpTo(job, i, pos) == Ok(local)
    ensures IterationUpTo(job, i, pos + 1) == RunNext(job, i, pos, local)
    ensures RunNext(job, i, pos, local).Err? ==> IterationOf(job, i) == Err(RunNext(job, i, pos, local).error)
  {
    ChainAdvance(RunStep(job, i), Seed(job, i), pos, |job.scope|, local);
  }

  lemma OutcomeOk(job: Job, tasks: seq<Task>, i: nat, outcome: Result<View, Failure>)
    requires ValidJob(job) && |tasks| == |job.values| && i < |tasks| && Enabled(job, tasks, i, Advance)
    requires IterationUpTo(job, i, tasks[i].pos + 1) == outcome
    requires outcome.Err? ==> IterationOf(job, i) == Err(outcome.error)
    ensures TaskOk(job, tasks[i := Ran(tasks[i].pos, outcome)], i)
  {
  }

  lemma AdvancedOk(job: Job, tasks: seq<Task>, i: nat)
    requires ValidJob(job) && |tasks| == |job.values| && i < |tasks| && TaskOk(job, tasks, i)
    requires Enabled(job, tasks, i, Advance)
    ensures TaskOk(job, tasks[i := Moved(job, tasks, i, Advance)], i)
  {
    AdvanceOk(job, i, tasks[i].pos, tasks[i].local);
    OutcomeOk(job, tasks, i, RunNext(job, i, tasks[i].pos, tasks[i].local));
  }

  lemma MovedOk(job: Job, tasks: seq<Task>, i: nat, move: Move)
    requires ValidJob(job) && |tasks| == |job.values| && i < |tasks| && TaskOk(job, tasks, i)
    requires Enabled(job, tasks, i, move)
    ensures TaskOk(job, tasks[i := Moved(job, tasks, i, move)], i)
  {
    match move
    case Start =>
    case Finish =>
    case Cancel =>
      var j :| 0 <= j < |tasks| && tasks[j].Failed?;
      assert tasks[i := Cancelled][j].Failed?;
    case Advance => AdvancedOk(job, tasks, i);
  }

  lemma StepKeepsTasksOk(job: Job, tasks: seq<Task>, i: nat, move: Move)
    requires ValidJob(job) && TasksOk(job, tasks) && Enabled(job, tasks, i, move)
    ensures TasksOk(job, tasks[i := Moved(job, tasks, i, move)])
  {
    var tasks' := tasks[i := Moved(job, tasks, i, move)];
    CapKept(job, tasks, i, move);
    forall j | 0 <= j < |tasks'| ensures TaskOk(job, tasks', j) {
      assert TaskOk(job, tasks, i);
      if j == i {
        MovedOk(job, tasks, i, move);
      } else {
        assert TaskOk(job, tasks, j);
        if tasks[j].Cancelled? {
          var f :| 0 <= f < |tasks| && tasks[f].Failed?;
          assert tasks'[f].Failed?;
        }
      }
    }
  }

  lemma BeginOk(job: Job)
    requires ValidJob(job)
    ensures TasksOk(job, Begin(job))
  {
    assert InFlight(Begin(job)) == {};
  }

  /** In every interleaving, at every moment: at most `cap` iterations in flight, and each exactly
      where it would be if it ran alone. */
  lemma {:induction false} EveryRunIsOk(job: Job, trace: seq<seq<Task>>, k: nat)
    requires ValidJob(job) && IsRun(job, trace) && k < |trace|
    ensures TasksOk(job, trace[k])
    decreases k
  {
    if k == 0 {
      BeginOk(job);
    } else {
      EveryRunIsOk(job, trace, k - 1);
      assert NextAt(job, trace, k - 1);
      var i: nat, move :| Enabled(job, trace[k - 1], i, move)
          && trace[k] == trace[k - 1][i := Moved(job, trace[k - 1], i, move)];
      StepKeepsTasksOk(job, trace[k - 1], i, move);
    }
  }

  // ---------------------------------------------------------------- progress

  predicate AllFinished(tasks: seq<Task>) {
    forall i :: 0 <= i < |tasks| ==> Finished(tasks[i])
  }

  /** Until everything has finished, some iteration can take a step that is not a cancellation. */
  lemma NeverStuck(job: Job, tasks: seq<Task>)
    requires ValidJob(job) && TasksOk(job, tasks) && !AllFinished(tasks)
    ensures exists i: nat, move :: Enabled(job, tasks, i, move) && !move.Cancel?
  {
    if f :| 0 <= f < |tasks| && tasks[f].Running? {
      assert TaskOk(job, tasks, f);
      assert Enabled(job, tasks, f, if tasks[f].pos < |job.scope| then Advance else Finish);
    } else {
      assert InFlight(tasks) == {};
      var w :| 0 <= w < |tasks| && !Finished(tasks[w]);
      assert Enabled(job, tasks, w, Start);
    }
  }

  /** Steps an iteration may still take. */
  function Remaining(job: Job, t: Task): nat {
    match t
    case Waiting => |job.scope| + 2
    case Running(pos, _) => if pos <= |job.scope| then |job.scope| + 1 - pos else 0
    case _ => 0
  }

  function TotalRemaining(job: Job, tasks: seq<Task>): nat {
    if tasks == [] then 0 else Remaining(job, tasks[0]) + TotalRemaining(job, tasks[1..])
  }

  lemma {:induction false} TotalAfter(job: Job, tasks: seq<Task>, i: nat, t: Task)
    requires i < |tasks|
    ensures TotalRemaining(job, tasks[i := t]) == TotalRemaining(job, tasks) - Remaining(job, tasks[i])
            + Remaining(job, t)
  {
    if i == 0 {
      assert tasks[i := t][1..] == tasks[1..];
    } else {
      assert tasks[i := t][1..] == tasks[1..][i - 1 := t];
      TotalAfter(job, tasks[1..], i - 1, t);
    }
  }

  lemma StepDecreases(job: Job, tasks: seq<Task>, i: nat, move: Move)
    requires ValidJob(job) && TasksOk(job, tasks) && Enabled(job, tasks, i, move)
    ensures TotalRemaining(job, tasks[i := Moved(job, tasks, i, move)]) < TotalRemaining(job, tasks)
  {
    assert TaskOk(job, tasks, i);
    TotalAfter(job, tasks, i, Moved(job, tasks, i, move));
  }

  /** No interleaving runs forever. */
  lemma {:induction false} RunsAreBounded(job: Job, trace: seq<seq<Task>>, k: nat)
    requires ValidJob(job) && IsRun(job, trace) && k < |trace|
    ensures k + TotalRemaining(job, trace[k]) <= TotalRemaining(job, Begin(job))
    decreases k
  {
    if k > 0 {
      RunsAreBounded(job, trace, k - 1);
      EveryRunIsOk(job, trace, k - 1);
      assert NextAt(job, trace, k - 1);
      var i: nat, move :| Enabled(job, trace[k - 1], i, move)
          && trace[k] == trace[k - 1][i := Moved(job, trace[k - 1], i, move)];
      StepDecreases(job, trace[k - 1], i, move);
    }
  }

  /** Run the iterations under an arbitrary scheduler until all have finished. */
  method RunIterations(job: Job) returns (tasks: seq<Task>, ghost trace: seq<seq<Task>>)
    requires ValidJob(job)
    ensures IsRun(job, trace) && tasks == trace[|trace| - 1]
    ensures TasksOk(job, tasks) && AllFinished(tasks)
  {
    tasks := Begin(job);
    trace := [tasks];
    BeginOk(job);
    while !AllFinished(tasks)
      invariant IsRun(job, trace) && tasks == trace[|trace| - 1]
      invariant TasksOk(job, tasks)
      decreases TotalRemaining(job, tasks)
    {
      NeverStuck(job, tasks);
      var i: nat, move: Move :| i < |tasks| && Enabled(job, tasks, i, move);
      StepKeepsTasksOk(job, tasks, i, move);
      StepDecreases(job, tasks, i, move);
      var tasks' := tasks[i := Moved(job, tasks, i, move)];
      RunExtends(job, trace, tasks');
      tasks, trace := tasks', trace + [tasks'];
    }
  }

  lemma RunExtends(job: Job, trace: seq<seq<Task>>, tasks': seq<Task>)
    requires ValidJob(job) && IsRun(job, trace) && |tasks'| == |job.values|
    requires Next(job, trace[|trace| - 1], tasks')
    ensures IsRun(job, trace + [tasks'])
  {
    var longer := trace + [tasks'];
    forall k | 0 <= k < |longer| - 1 ensures NextAt(job, longer, k) {
      if k < |trace| - 1 {
        assert NextAt(job, trace, k);
      }
    }
  }

  // ---------------------------------------------------------------- outcomes

  /** The iterations run one after another, in value order. */
  ghost function Sequential(job: Job): seq<Task>
    requires ValidJob(job)
  {
    seq(|job.values|, i requires 0 <= i < |job.values| => Settled(job, i))
  }

  ghost function Settled(job: Job, i: nat): Task
    requires ValidJob(job) && i < |job.values|
  {
    match IterationOf(job, i) case Ok(local) => Done(local) case Err(f) => Failed(f)
  }

  /** Some iteration fails when run alone. */
  ghost predicate SomeFails(job: Job)
    requires ValidJob(job)
  {
    exists i :: 0 <= i < |job.values| && IterationOf(job, i).Err?
  }

  lemma FailedTasksFail(job: Job, tasks: seq<Task>)
    requires ValidJob(job) && TasksOk(job, tasks) && SomeFailed(tasks)
    ensures SomeFails(job)
  {
    var i :| 0 <= i < |tasks| && tasks[i].Failed?;
    assert TaskOk(job, tasks, i);
  }

  /** Under continue-on-error, or when no iteration fails, every interleaving ends as the
      sequential execution does. */
  lemma FinishedIsSequential(job: Job, tasks: seq<Task>)
    requires ValidJob(job) && TasksOk(job, tasks) && AllFinished(tasks)
    requires !job.failFast || !SomeFails(job)
    ensures tasks == Sequential(job)
  {
    if SomeFailed(tasks) {
      FailedTasksFail(job, tasks);
    }
    forall i | 0 <= i < |tasks| ensures tasks[i] == Settled(job, i) {
      assert TaskOk(job, tasks, i);
      assert Finished(tasks[i]);
    }
  }

  /** The failures of the finished iterations, by index. */
  function Failures(tasks: seq<Task>): seq<Failure> {
    if tasks == [] then []
    else
      var t := tasks[|tasks| - 1];
      Failures(tasks[..|tasks| - 1]) + if t.Failed? then [t.failure] else []
  }

  ghost predicate SortedByIndex(failures: seq<Failure>) {
    forall i, j :: 0 <= i < j < |failures| ==> failures[i].index < failures[j].index
  }

  lemma {:induction false} FailuresAre(tasks: seq<Task>)
    requires forall i :: 0 <= i < |tasks| && tasks[i].Failed? ==> tasks[i].failure.index == i
    ensures SortedByIndex(Failures(tasks))
    ensures forall f :: f in Failures(tasks) <==> 0 <= f.index < |tasks| && tasks[f.index] == Failed(f)
    ensures Failures(tasks) != [] <==> SomeFailed(tasks)
  {
    if tasks != [] {
      var front, t := tasks[..|tasks| - 1], tasks[|tasks| - 1];
      assert tasks == front + [t];
      FailuresAre(front);
      assert SomeFailed(tasks) <==> SomeFailed(front) || t.Failed? by {
        if SomeFailed(front) {
          var i :| 0 <= i < |front| && front[i].Failed?;
          assert tasks[i].Failed?;
        }
        if t.Failed? {
          assert tasks[|tasks| - 1].Failed?;
        }
      }
      var before := Failures(front);
      forall i, j | 0 <= i < j < |Failures(tasks)| ensures Failures(tasks)[i].index < Failures(tasks)[j].index {
        if j == |before| {
          assert before[i] in before;
        }
      }
    }
  }

  /** A failure names its iteration and the node it happened in. */
  ghost predicate FailureOf(job: Job, i: nat, f: Failure) {
    f.index == i && f.error.node == f.node && f.node in job.scope && f.error.iteration == Some(i)
  }

  lemma RunNextFailure(job: Job, i: nat, k: nat, local: View)
    requires i < |job.values| && k < |job.scope| && job.scope[k] in Ids(job.p.nodes) && RunNext(job, i, k, local).Err?
    ensures FailureOf(job, i, RunNext(job, i, k, local).error)
  {
  }

  lemma FailureIndex(job: Job, i: nat)
    requires ValidJob(job) && i < |job.values|
    ensures IterationOf(job, i).Err? ==> FailureOf(job, i, IterationOf(job, i).error)
  {
    var step, like := RunStep(job, i), f => FailureOf(job, i, f);
    forall k: nat, local | k < |job.scope| ensures FailsLike(step, like, k, local) {
      if step(k, local).Err? {
        RunNextFailure(job, i, k, local);
      }
    }
    ChainErrors(step, Seed(job, i), |job.scope|, like);
  }

  lemma TasksIndexed(job: Job, tasks: seq<Task>)
    requires ValidJob(job) && TasksOk(job, tasks)
    ensures forall i :: 0 <= i < |tasks| && tasks[i].Failed? ==>
              tasks[i].failure.index == i && tasks[i].failure.node in job.scope
              && tasks[i].failure.error.node == tasks[i].failure.node
  {
    forall i | 0 <= i < |tasks| && tasks[i].Failed?
      ensures tasks[i].failure.index == i && tasks[i].failure.node in job.scope
      ensures tasks[i].failure.error.node == tasks[i].failure.node
    {
      assert TaskOk(job, tasks, i);
      FailureIndex(job, i);
    }
  }

  /** What is reported of a finished fan-out, in either mode: only true failures, sorted by index,
      and at least one if some iteration fails. */
  lemma ReportedFailuresAreTrue(job: Job, tasks: seq<Task>)
    requires ValidJob(job) && TasksOk(job, tasks) && AllFinished(tasks)
    ensures SortedByIndex(Failures(tasks))
    ensures forall f :: f in Failures(tasks) ==> f.index < |job.values| && IterationOf(job, f.index) == Err(f)
    ensures Failures(tasks) != [] <==> SomeFails(job)
  {
    TasksIndexed(job, tasks);
    FailuresAre(tasks);
    forall f | f in Failures(tasks) ensures f.index < |job.values| && IterationOf(job, f.index) == Err(f) {
      assert TaskOk(job, tasks, f.index);
    }
    if SomeFails(job) {
      var i :| 0 <= i < |job.values| && IterationOf(job, i).Err?;
      assert TaskOk(job, tasks, i) && Finished(tasks[i]);
      assert tasks[i].Failed? || SomeFailed(tasks);
    }
    if SomeFailed(tasks) {
      FailedTasksFail(job, tasks);
    }
  }

  // ---------------------------------------------------------------- fan-in

  /** What a completed iteration put on a member's port. */
  function Emitted(t: Task, member: NodeId, port: string): Records {
    if t.Done? && member in t.local && port in t.local[member] then t.local[member][port] else []
  }

  predicate Participates(t: Task, member: NodeId) {
    t.Done? && member in t.local
  }

  /** `concat`: the records of all completed iterations, in iteration order. */
  function ConcatPort(tasks: seq<Task>, member: NodeId, port: string): Records {
    if tasks == [] then []
    else ConcatPort(tasks[..|tasks| - 1], member, port) + Emitted(tasks[|tasks| - 1], member, port)
  }

  function KeyedRecord(key: Value, records: Records): Value {
    Dict([Entry("key", key), Entry("records", List(records))])
  }

  /** `keyed`: one record per completed iteration, holding its value and its records. */
  function KeyedPort(values: seq<Value>, tasks: seq<Task>, member: NodeId, port: string): Records
    requires |tasks| <= |values|
  {
    if tasks == [] then []
    else
      var i := |tasks| - 1;
      KeyedPort(values, tasks[..i], member, port)
      + if Participates(tasks[i], member) then [KeyedRecord(values[i], Emitted(tasks[i], member, port))] else []
  }

  /** The ports of a member: its class's and any that an iteration used. */
  function PortsSeen(tasks: seq<Task>, member: NodeId): set<string> {
    if tasks == [] then {}
    else
      var t := tasks[|tasks| - 1];
      PortsSeen(tasks[..|tasks| - 1], member) + if Participates(t, member) then t.local[member].Keys else {}
  }

  function PortRecords(values: seq<Value>, fanIn: FanIn, tasks: seq<Task>, member: NodeId, port: string): Records
    requires |tasks| <= |values|
  {
    match fanIn
    case Concat => ConcatPort(tasks, member, port)
    case Keyed => KeyedPort(values, tasks, member, port)
  }

  /** A member's combined outputs. */
  function Combined(values: seq<Value>, fanIn: FanIn, declared: set<string>, tasks: seq<Task>, member: NodeId): Outputs
    requires |tasks| <= |values|
  {
    map port | port in declared + PortsSeen(tasks, member) :: PortRecords(values, fanIn, tasks, member, port)
  }

  function Participations(tasks: seq<Task>, member: NodeId): nat {
    if tasks == [] then 0
    else Participations(tasks[..|tasks| - 1], member) + if Participates(tasks[|tasks| - 1], member) then 1 else 0
  }

  /** The records inside keyed records, one after another. */
  function Flatten(keyed: Records): Records {
    if keyed == [] then []
    else
      Flatten(keyed[..|keyed| - 1]) +
      var last := keyed[|keyed| - 1];
      if last.Dict? && Lookup(last.entries, "records").Some? && Lookup(last.entries, "records").value.List?
      then Lookup(last.entries, "records").value.items else []
  }

  lemma RecordsOfKeyed(key: Value, records: Records)
    ensures Lookup(KeyedRecord(key, records).entries, "records") == Some(List(records))
  {
    var entries := KeyedRecord(key, records).entries;
    assert entries[0].key[0] != "records"[0];
    assert entries[1..] == [Entry("records", List(records))];
  }

  /** Flattening the keyed result gives exactly the concatenated result. */
  lemma {:induction false} KeyedFlattensToConcat(values: seq<Value>, tasks: seq<Task>, member: NodeId, port: string)
    requires |tasks| <= |values|
    ensures Flatten(KeyedPort(values, tasks, member, port)) == ConcatPort(tasks, member, port)
  {
    if tasks != [] {
      var i := |tasks| - 1;
      KeyedFlattensToConcat(values, tasks[..i], member, port);
      if Participates(tasks[i], member) {
        var keyed := KeyedPort(values, tasks, member, port);
        assert keyed[..|keyed| - 1] == KeyedPort(values, tasks[..i], member, port);
        RecordsOfKeyed(values[i], Emitted(tasks[i], member, port));
      } else {
        assert KeyedPort(values, tasks, member, port) == KeyedPort(values, tasks[..i], member, port);
        assert ConcatPort(tasks, member, port) == ConcatPort(tasks[..i], member, port);
      }
    }
  }

  lemma CombinedModesAgree(values: seq<Value>, declared: set<string>, tasks: seq<Task>, member: NodeId)
    requires |tasks| <= |values|
    ensures var keyed, concat := Combined(values, Keyed, declared, tasks, member), Combined(values, Concat, declared,
            tasks, member);
            keyed.Keys == concat.Keys && forall port :: port in keyed ==> Flatten(keyed[port]) == concat[port]
  {
    forall port ensures Flatten(KeyedPort(values, tasks, member, port)) == ConcatPort(tasks, member, port) {
      KeyedFlattensToConcat(values, tasks, member, port);
    }
  }

  /** The loops that combine one member's outputs. */
  method FanInMember(values: seq<Value>, fanIn: FanIn, declared: set<string>, tasks: seq<Task>, member: NodeId)
    returns (combined: Outputs, participations: nat)
    requires |tasks| <= |values|
    ensures combined == Combined(values, fanIn, declared, tasks, member)
    ensures participations == Participations(tasks, member)
  {
    var ports := declared;
    participations := 0;
    for i := 0 to |tasks|
      invariant ports == declared + PortsSeen(tasks[..i], member)
      invariant participations == Participations(tasks[..i], member)
    {
      assert tasks[..i + 1][..i] == tasks[..i];
      if Participates(tasks[i], member) {
        ports := ports + tasks[i].local[member].Keys;
        participations := participations + 1;
      }
    }
    assert tasks[..|tasks|] == tasks;
    combined := map[];
    var todo := ports;
    while todo != {}
      invariant todo <= ports && combined.Keys == ports - todo
      invariant forall port :: port in combined ==> combined[port] == PortRecords(values, fanIn, tasks, member, port)
      decreases todo
    {
      var port :| port in todo;
      var records := FanInPort(values, fanIn, tasks, member, port);
      combined := combined[port := records];
      todo := todo - {port};
    }
  }

  method FanInPort(values: seq<Value>, fanIn: FanIn, tasks: seq<Task>, member: NodeId, port: string)
    returns (records: Records)
    requires |tasks| <= |values|
    ensures records == PortRecords(values, fanIn, tasks, member, port)
  {
    records := [];
    for i := 0 to |tasks|
      invariant records == PortRecords(values, fanIn, tasks[..i], member, port)
    {
      assert tasks[..i + 1][..i] == tasks[..i];
      match fanIn
      case Concat => records := records + Emitted(tasks[i], member, port);
      case Keyed =>
        if Participates(tasks[i], member) {
          records := records + [KeyedRecord(values[i], Emitted(tasks[i], member, port))];
        }
    }
    assert tasks[..|tasks|] == tasks;
  }
}
