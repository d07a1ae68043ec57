/** An iteration does not depend on the order of its scope: if it completes in one topological order of
    the scope, it completes in every other, with the same outputs. */
module Iterations {
  import opened Wrappers
  import opened Chains
  import opened Graphs
  import opened Topo
  import opened Json
  import opened References
  import opened Pipelines
  import opened NodeExecution
  import opened Fanout
  import opened ScopeInputs

  ghost predicate SameAt(v: View, w: View, x: NodeId) {
    (x in v <==> x in w) && (x in v ==> v[x] == w[x])
  }

  /** What a member reads of the fan-out itself comes before it in the scope. */
  ghost predicate InnerOrdered(job: Job)
    requires ValidJob(job)
  {
    forall k, x :: 0 <= k < |job.scope| && x in Reads(job.p, job.scope[k]) ==> InnerEarlier(job, k, x)
  }

  ghost predicate InnerEarlier(job: Job, k: nat, x: NodeId)
    requires k < |job.scope|
  {
    x in job.scope ==> x in job.scope[..k]
  }

  /** A job whose scope lists each member once, in an order that its reads follow. */
  ghost predicate WellOrdered(job: Job) {
    ValidJob(job) && Distinct(job.scope) && job.owner !in job.scope && InnerOrdered(job)
  }

  function IterationContext(job: Job, i: nat): Option<Iteration>
    requires i < |job.values|
  {
    Some(Iteration(job.values[i], i))
  }

  // ---------------------------------------------------------------- a completed iteration is a solution

  /** Running the member on all outputs of the iteration gives its own. */
  ghost predicate SolvedBy(job: Job, i: nat, v: View, m: NodeId)
    requires i < |job.values|
  {
    m in Ids(job.p.nodes) && m in v && ExecuteNode(job.rt, job.p, m, job.base + v, IterationContext(job, i)) == Ok(v[m])
  }

  ghost predicate SolvedUpTo(job: Job, i: nat, k: nat, v: View)
    requires i < |job.values|
  {
    && k <= |job.scope|
    && v.Keys == {job.owner} + Elements(job.scope[..k]) && SameAt(v, Seed(job, i), job.owner)
    && forall j :: 0 <= j < k ==> SolvedBy(job, i, v, job.scope[j])
  }

  ghost predicate Solution(job: Job, i: nat, v: View)
    requires i < |job.values|
  {
    SolvedUpTo(job, i, |job.scope|, v)
  }

  lemma ReadsOtherwise(rt: Runtime, p: Pipeline, m: NodeId, base: View, v: View, n: NodeId, outputs: Outputs,
                       iter: Option<Iteration>)
    requires m in Ids(p.nodes) && n !in Reads(p, m)
    ensures ExecuteNode(rt, p, m, base + v[n := outputs], iter) == ExecuteNode(rt, p, m, base + v, iter)
  {
    ExecuteFrame(rt, p, m, base + v[n := outputs], base + v, iter);
  }

  lemma NextUnread(job: Job, k: nat, j: nat)
    requires WellOrdered(job) && j <= k < |job.scope|
    ensures job.scope[k] !in Reads(job.p, job.scope[j])
  {
    assert job.scope[k] in job.scope;
    forall i | 0 <= i < j ensures job.scope[..j][i] != job.scope[k] {
      assert job.scope[i] != job.scope[k];
    }
    assert job.scope[k] in Reads(job.p, job.scope[j]) ==> InnerEarlier(job, j, job.scope[k]);
  }

  lemma NextIsNew(job: Job, k: nat)
    requires WellOrdered(job) && k < |job.scope|
    ensures job.scope[k] !in Elements(job.scope[..k]) && job.scope[k] != job.owner
  {
    assert job.scope[k] in job.scope;
    forall i | 0 <= i < k ensures job.scope[..k][i] != job.scope[k] {
      assert job.scope[i] != job.scope[k];
    }
  }

  lemma StillSolved(job: Job, i: nat, k: nat, v: View, outputs: Outputs, j: nat)
    requires WellOrdered(job) && i < |job.values| && j < k < |job.scope| && SolvedBy(job, i, v, job.scope[j])
    ensures SolvedBy(job, i, v[job.scope[k] := outputs], job.scope[j])
  {
    NextUnread(job, k, j);
    ReadsOtherwise(job.rt, job.p, job.scope[j], job.base, v, job.scope[k], outputs, IterationContext(job, i));
    assert job.scope[j] != job.scope[k];
  }

  lemma NewlySolved(job: Job, i: nat, k: nat, v: View, outputs: Outputs)
    requires WellOrdered(job) && i < |job.values| && k < |job.scope|
    requires ExecuteNode(job.rt, job.p, job.scope[k], job.base + v, IterationContext(job, i)) == Ok(outputs)
    ensures SolvedBy(job, i, v[job.scope[k] := outputs], job.scope[k])
  {
    NextUnread(job, k, k);
    ReadsOtherwise(job.rt, job.p, job.scope[k], job.base, v, job.scope[k], outputs, IterationContext(job, i));
  }

  lemma SolvedNext(job: Job, i: nat, k: nat, v: View)
    requires WellOrdered(job) && i < |job.values| && k < |job.scope| && SolvedUpTo(job, i, k, v)
    requires RunNext(job, i, k, v).Ok?
    ensures SolvedUpTo(job, i, k + 1, RunNext(job, i, k, v).value)
  {
    var outputs := ExecuteNode(job.rt, job.p, job.scope[k], job.base + v, IterationContext(job, i)).value;
    var v' := v[job.scope[k] := outputs];
    NextIsNew(job, k);
    ElementsSnoc(job.scope, k);
    NewlySolved(job, i, k, v, outputs);
    forall j | 0 <= j < k + 1 ensures SolvedBy(job, i, v', job.scope[j]) {
      if j < k {
        StillSolved(job, i, k, v, outputs, j);
      }
    }
    assert RunNext(job, i, k, v).value == v';
  }

  ghost function SolvedSoFar(job: Job, i: nat): (nat, View) -> bool
    requires i < |job.values|
  {
    (k: nat, local: View) => SolvedUpTo(job, i, k, local)
  }

  lemma SolvedKept(job: Job, i: nat, k: nat, local: View)
    requires WellOrdered(job) && i < |job.values| && k < |job.scope|
    ensures StepKeeps(RunStep(job, i), SolvedSoFar(job, i), k, local)
  {
    var r := RunStep(job, i)(k, local);
    StepIs(job, i, k, local);
    if SolvedSoFar(job, i)(k, local) && r.Ok? {
      SolvedAfter(job, i, k, local, r.value);
    }
  }

  lemma StepIs(job: Job, i: nat, k: nat, local: View)
    requires ValidJob(job) && i < |job.values| && k < |job.scope|
    ensures RunStep(job, i)(k, local) == RunNext(job, i, k, local)
  {
  }

  lemma SolvedAfter(job: Job, i: nat, k: nat, local: View, next: View)
    requires WellOrdered(job) && i < |job.values| && k < |job.scope| && SolvedSoFar(job, i)(k, local)
    requires RunNext(job, i, k, local) == Ok(next)
    ensures SolvedSoFar(job, i)(k + 1, next)
  {
    SolvedNext(job, i, k, local);
  }

  lemma SeedSolves(job: Job, i: nat)
    requires i < |job.values|
    ensures SolvedSoFar(job, i)(0, Seed(job, i))
  {
    assert job.scope[..0] == [];
  }

  lemma CompletedIsSolution(job: Job, i: nat, v: View)
    requires WellOrdered(job) && i < |job.values| && IterationOf(job, i) == Ok(v)
    ensures Solution(job, i, v)
  {
    var step := RunStep(job, i);
    forall k: nat, local | k < |job.scope| ensures StepKeeps(step, SolvedSoFar(job, i), k, local) {
      SolvedKept(job, i, k, local);
    }
    SeedSolves(job, i);
    ChainKeeps(step, Seed(job, i), |job.scope|, SolvedSoFar(job, i));
  }

  // ---------------------------------------------------------------- a solution is reached in every order

  /** The same fan-out with its scope in another order, on outputs that agree where the scope reads. */
  ghost predicate Reordered(job: Job, other: Job) {
    && WellOrdered(job) && WellOrdered(other)
    && other.rt == job.rt && other.p == job.p && other.owner == job.owner && other.values == job.values
    && (forall m :: m in other.scope <==> m in job.scope)
    && forall k, x :: 0 <= k < |job.scope| && x in Reads(job.p, job.scope[k]) ==> OutsideAgrees(job, other, x)
  }

  ghost predicate OutsideAgrees(job: Job, other: Job, x: NodeId) {
    x != job.owner && x !in job.scope ==> SameAt(job.base, other.base, x)
  }

  /** The outputs of the iterator and the first `k` members. */
  ghost function Part(job: Job, v: View, k: nat): View {
    map x | x in v && (x == job.owner || (k <= |job.scope| && x in job.scope[..k])) :: v[x]
  }

  lemma SolutionKeys(job: Job, i: nat, v: View)
    requires i < |job.values| && Solution(job, i, v)
    ensures forall x :: x in v <==> x == job.owner || x in job.scope
  {
    assert job.scope[..|job.scope|] == job.scope;
  }

  lemma PartReadAt(job: Job, other: Job, v: View, k: nat, x: NodeId)
    requires (forall y :: y in v <==> y == job.owner || y in job.scope) && other.owner == job.owner
    requires (forall m :: m in other.scope <==> m in job.scope) && k < |other.scope|
    requires InnerEarlier(other, k, x) && OutsideAgrees(job, other, x)
    ensures SameAt(other.base + Part(other, v, k), job.base + v, x)
  {
  }

  lemma PartReads(job: Job, other: Job, i: nat, v: View, k: nat)
    requires Reordered(job, other) && i < |job.values| && Solution(job, i, v) && k < |other.scope|
    ensures Agree(other.base + Part(other, v, k), job.base + v, Reads(job.p, other.scope[k]))
  {
    SolutionKeys(job, i, v);
    var n := other.scope[k];
    assert n in other.scope;
    var j :| 0 <= j < |job.scope| && job.scope[j] == n;
    forall x | x in Reads(job.p, n) ensures SameAt(other.base + Part(other, v, k), job.base + v, x) {
      assert InnerEarlier(other, k, x);
      assert OutsideAgrees(job, other, x);
      PartReadAt(job, other, v, k, x);
    }
  }

  lemma PartNext(job: Job, other: Job, i: nat, v: View, k: nat)
    requires Reordered(job, other) && i < |job.values| && Solution(job, i, v) && k < |other.scope|
    ensures RunNext(other, i, k, Part(other, v, k)) == Ok(Part(other, v, k + 1))
  {
    var n := other.scope[k];
    PartReads(job, other, i, v, k);
    ExecuteFrame(job.rt, job.p, n, other.base + Part(other, v, k), job.base + v, IterationContext(job, i));
    assert n in other.scope;
    var j :| 0 <= j < |job.scope| && job.scope[j] == n;
    assert SolvedBy(job, i, v, job.scope[j]);
    PartGrows(other, v, k);
  }

  lemma PartGrows(job: Job, v: View, k: nat)
    requires k < |job.scope| && job.scope[k] in v
    ensures Part(job, v, k + 1) == Part(job, v, k)[job.scope[k] := v[job.scope[k]]]
  {
    assert job.scope[..k + 1] == job.scope[..k] + [job.scope[k]];
  }

  lemma PartIsAll(job: Job, v: View, seed: View)
    requires (forall x :: x in v <==> x == job.owner || x in job.scope) && job.owner !in job.scope
    requires seed.Keys == {job.owner} && SameAt(v, seed, job.owner)
    ensures Part(job, v, |job.scope|) == v && Part(job, v, 0) == seed
  {
    assert job.scope[..|job.scope|] == job.scope && job.scope[..0] == [];
  }

  lemma SolutionIsReached(job: Job, other: Job, i: nat, v: View)
    requires Reordered(job, other) && i < |job.values| && Solution(job, i, v)
    ensures IterationOf(other, i) == Ok(v)
  {
    var step, f := RunStep(other, i), (k: nat) => Part(other, v, k);
    forall k: nat | k < |other.scope| ensures StepsTo(step, f, k) {
      PartNext(job, other, i, v, k);
    }
    SolutionKeys(job, i, v);
    PartIsAll(other, v, Seed(other, i));
    ChainFollows(step, f, |other.scope|);
  }

  lemma ReorderedBack(job: Job, other: Job)
    requires Reordered(job, other)
    ensures Reordered(other, job)
  {
    forall k, x | 0 <= k < |other.scope| && x in Reads(other.p, other.scope[k]) ensures OutsideAgrees(other, job, x) {
      assert other.scope[k] in other.scope;
      var j :| 0 <= j < |job.scope| && job.scope[j] == other.scope[k];
      assert OutsideAgrees(job, other, x);
    }
  }

  /** An iteration completes in one order exactly when it does in the other, with the same outputs. */
  lemma OrderOfScopeDoesNotMatter(job: Job, other: Job, i: nat)
    requires Reordered(job, other) && i < |job.values|
    ensures IterationOf(job, i).Ok? <==> IterationOf(other, i).Ok?
    ensures IterationOf(job, i).Ok? ==> IterationOf(job, i) == IterationOf(other, i)
  {
    ReorderedBack(job, other);
    if IterationOf(job, i).Ok? {
      CompletedIsSolution(job, i, IterationOf(job, i).value);
      SolutionIsReached(job, other, i, IterationOf(job, i).value);
    }
    if IterationOf(other, i).Ok? {
      CompletedIsSolution(other, i, IterationOf(other, i).value);
      SolutionIsReached(other, job, i, IterationOf(other, i).value);
    }
  }

  // ---------------------------------------------------------------- fan-in

  ghost predicate SameDone(t: Task, u: Task) {
    (t.Done? <==> u.Done?) && (t.Done? ==> t == u)
  }

  ghost predicate SameCompleted(tasks: seq<Task>, others: seq<Task>) {
    |tasks| == |others| && forall i :: 0 <= i < |tasks| ==> SameDone(tasks[i], others[i])
  }

  lemma SequentialSameCompleted(job: Job, other: Job)
    requires Reordered(job, other)
    ensures SameCompleted(Sequential(job), Sequential(other))
  {
    forall i | 0 <= i < |job.values| ensures SameDone(Settled(job, i), Settled(other, i)) {
      OrderOfScopeDoesNotMatter(job, other, i);
    }
  }

  lemma {:induction false} SamePorts(values: seq<Value>, tasks: seq<Task>, others: seq<Task>, m: NodeId, port: string)
    requires SameCompleted(tasks, others) && |tasks| <= |values|
    ensures ConcatPort(tasks, m, port) == ConcatPort(others, m, port)
    ensures KeyedPort(values, tasks, m, port) == KeyedPort(values, others, m, port)
  {
    if tasks != [] {
      var i := |tasks| - 1;
      SamePorts(values, tasks[..i], others[..i], m, port);
      assert SameDone(tasks[i], others[i]);
    }
  }

  lemma {:induction false} SameSeen(tasks: seq<Task>, others: seq<Task>, m: NodeId)
    requires SameCompleted(tasks, others)
    ensures PortsSeen(tasks, m) == PortsSeen(others, m)
  {
    if tasks != [] {
      var i := |tasks| - 1;
      SameSeen(tasks[..i], others[..i], m);
      assert SameDone(tasks[i], others[i]);
    }
  }

  /** What a member combines depends only on the completed iterations. */
  lemma SameCombined(values: seq<Value>, fanIn: FanIn, declared: set<string>, tasks: seq<Task>, others: seq<Task>,
                     m: NodeId)
    requires SameCompleted(tasks, others) && |tasks| <= |values|
    ensures Combined(values, fanIn, declared, tasks, m) == Combined(values, fanIn, declared, others, m)
  {
    SameSeen(tasks, others, m);
    forall port ensures PortRecords(values, fanIn, tasks, m, port) == PortRecords(values, fanIn, others, m, port) {
      SamePorts(values, tasks, others, m, port);
    }
  }
}
