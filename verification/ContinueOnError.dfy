/** What holds after every node of a continue-on-error run: the exact law of which nodes are
    skipped, with iterators and without. */
module ContinueOnError {
  import opened Wrappers
  import opened Chains
  import opened Graphs
  import opened NodeExecution
  import opened Fanout
  import opened EngineModel
  import opened FailFast

  // ---------------------------------------------------------------- the invariant

  ghost predicate FailedClosed(env: Env, s: Snapshot) {
    forall a :: Is(s, a, FAILED) ==> Below(env, a) <= s.results.Keys
  }

  ghost predicate HasFailedAbove(env: Env, s: Snapshot, n: NodeId) {
    exists a :: a in Above(env, n) && Is(s, a, FAILED)
  }

  /** Only what is downstream of a failure is skipped. */
  ghost predicate SkippedHaveCause(env: Env, s: Snapshot) {
    forall n :: Is(s, n, SKIPPED) ==> HasFailedAbove(env, s, n)
  }

  /** A scope is skipped as a whole when its iterator did not succeed, and not at all otherwise. */
  ghost predicate ScopesFollow(env: Env, s: Snapshot) {
    forall it, m :: FansOut(env, it) && it in s.results && m in Below(env, it) ==> ScopeFollows(s, it, m)
  }

  ghost predicate ScopeFollows(s: Snapshot, it: NodeId, m: NodeId) {
    m in s.results && (Is(s, m, SKIPPED) <==> !Is(s, it, SUCCEEDED))
  }

  /** Outside all scopes, what was not skipped has no failure upstream. */
  ghost predicate FreeNodesClean(env: Env, s: Snapshot) {
    forall n :: n in s.results && !Is(s, n, SKIPPED) && !InSomeScope(env, n) ==> !HasFailedAbove(env, s, n)
  }

  /** `n` lies in the scope of an iterator that is done and succeeded. */
  ghost predicate InFinishedScope(env: Env, done: set<NodeId>, s: Snapshot, n: NodeId) {
    exists it :: it in done && FansOut(env, it) && Is(s, it, SUCCEEDED) && n in Below(env, it)
  }

  /** A result ahead of its turn is a skip or comes from a fan-out. */
  ghost predicate EarlyResults(env: Env, done: set<NodeId>, s: Snapshot) {
    forall n :: n in s.results && n !in done ==> Is(s, n, SKIPPED) || InFinishedScope(env, done, s, n)
  }

  /** Outputs are buffered for succeeded nodes and for members that failed in some iterations. */
  ghost predicate OutputsExact(env: Env, s: Snapshot) {
    forall n :: n in s.outputs <==> Is(s, n, SUCCEEDED) || (Is(s, n, FAILED) && InSomeScope(env, n))
  }

  ghost predicate ContinueOk(env: Env, done: set<NodeId>, s: Snapshot) {
    && done <= s.results.Keys <= Nodes(env)
    && ErrorsMatch(s)
    && FailedClosed(env, s)
    && SkippedHaveCause(env, s)
    && ScopesFollow(env, s)
    && FreeNodesClean(env, s)
    && EarlyResults(env, done, s)
    && OutputsExact(env, s)
  }

  // ---------------------------------------------------------------- the next node

  /** The graph facts about the next node that the steps use. */
  ghost predicate Front(env: Env, done: set<NodeId>, n: NodeId) {
    && n in Nodes(env) && n !in done
    && Below(env, n) <= Nodes(env) && Below(env, n) !! done && n !in Below(env, n)
    && Above(env, n) <= done
    && (forall m :: m in Below(env, n) ==> n in Above(env, m) && Below(env, m) <= Below(env, n))
    && (forall x, a :: x in done && a in Above(env, x) ==> a in done)
    && (forall x, a :: a in Above(env, x) <==> x in Below(env, a))
    && (forall a, b :: FansOut(env, a) && FansOut(env, b) && a != b ==> Apart(env, a, b))
  }

  ghost predicate Apart(env: Env, a: NodeId, b: NodeId) {
    b !in Below(env, a) && Below(env, a) !! Below(env, b)
  }

  /** What is among the first `k` nodes has its ancestors there too. */
  lemma PrefixIsClosed(env: Env, k: nat, x: NodeId, a: NodeId)
    requires ValidEnv(env) && k <= |env.order| && x in Elements(env.order[..k]) && a in Above(env, x)
    ensures a in Elements(env.order[..k])
  {
    var i :| 0 <= i < k && env.order[..k][i] == x;
    AboveIsEarlier(env, i, a);
    var j :| 0 <= j < i && env.order[..i][j] == a;
    assert env.order[..k][j] == a;
  }

  lemma LaterScope(env: Env, k: nat, m: NodeId)
    requires ValidEnv(env) && k < |env.order| && m in Below(env, env.order[k])
    ensures m !in Elements(env.order[..k]) && env.order[k] in Above(env, m) && Below(env, m) <= Below(env, env.order[k])
  {
    BelowIsLater(env, k, m);
    PrefixGrows(env, k);
    BelowAbove(env, env.order[k], m);
    BelowTransitive(env, env.order[k], m);
  }

  lemma FrontOf(env: Env, k: nat)
    requires ValidEnv(env) && k < |env.order|
    ensures Front(env, Elements(env.order[..k]), env.order[k])
  {
    var n, done := env.order[k], Elements(env.order[..k]);
    OrderCovers(env);
    BelowNodes(env, n);
    NotAmongFirst(env.order, k, k);
    forall m | m in Below(env, n) ensures m !in done && n in Above(env, m) && Below(env, m) <= Below(env, n) {
      LaterScope(env, k, m);
    }
    forall a | a in Above(env, n) ensures a in done {
      AboveIsEarlier(env, k, a);
    }
    forall x, a | x in done && a in Above(env, x) ensures a in done {
      PrefixIsClosed(env, k, x, a);
    }
    forall x, a ensures a in Above(env, x) <==> x in Below(env, a) {
      BelowAbove(env, a, x);
    }
    forall a, b | FansOut(env, a) && FansOut(env, b) && a != b ensures Apart(env, a, b) {
      ScopesApart(env, a, b);
    }
  }

  /** A node whose turn comes without a result is in no scope and has no failure upstream. */
  lemma FreshNode(env: Env, done: set<NodeId>, s: Snapshot, n: NodeId)
    requires ContinueOk(env, done, s) && Front(env, done, n) && n !in s.results
    ensures !InSomeScope(env, n) && !HasFailedAbove(env, s, n)
  {
    forall it | FansOut(env, it) ensures n !in Below(env, it) {
      assert it in s.results && n in Below(env, it) ==> ScopeFollows(s, it, n);
    }
    forall a | a in Above(env, n) ensures !Is(s, a, FAILED) {
      assert n in Below(env, a);
    }
  }

  /** What is below an iterator that has no result yet is skipped if it has a result at all. */
  lemma EarlyScopeIsSkipped(env: Env, done: set<NodeId>, s: Snapshot, n: NodeId, it: NodeId, m: NodeId)
    requires ContinueOk(env, done, s) && Front(env, done, n)
    requires FansOut(env, it) && it !in s.results && m in Below(env, it) && m in s.results
    ensures Is(s, m, SKIPPED)
  {
    assert it in Above(env, m);
    assert m !in done;
    forall other | other in done && FansOut(env, other) && Is(s, other, SUCCEEDED) ensures m !in Below(env, other) {
      assert Apart(env, other, it);
    }
    assert !InFinishedScope(env, done, s, m);
  }

  // ---------------------------------------------------------------- the steps

  lemma ContinueExisting(env: Env, done: set<NodeId>, s: Snapshot, n: NodeId)
    requires ContinueOk(env, done, s) && n in s.results
    ensures ContinueOk(env, done + {n}, s)
  {
    forall m | m in s.results && m !in done + {n} ensures Is(s, m, SKIPPED) || InFinishedScope(env, done + {n}, s, m) {
      if !Is(s, m, SKIPPED) {
        assert InFinishedScope(env, done, s, m);
      }
    }
  }

  /** The node succeeds and nothing else changes status. */
  ghost predicate JustSucceeds(s: Snapshot, n: NodeId, s': Snapshot) {
    && n !in s.results
    && s'.results.Keys == s.results.Keys + {n} && s'.outputs.Keys == s.outputs.Keys + {n}
    && s'.errors == s.errors
    && Is(s', n, SUCCEEDED)
    && forall m :: m in s.results ==> s'.results[m] == s.results[m]
  }

  lemma StatusesAfterSuccess(s: Snapshot, n: NodeId, s': Snapshot)
    requires JustSucceeds(s, n, s')
    ensures forall m :: Is(s', m, FAILED) <==> Is(s, m, FAILED)
    ensures forall m :: Is(s', m, SKIPPED) <==> Is(s, m, SKIPPED)
    ensures forall m :: Is(s', m, SUCCEEDED) <==> m == n || Is(s, m, SUCCEEDED)
  {
  }

  lemma SameFailures(env: Env, s: Snapshot, s': Snapshot)
    requires forall m :: Is(s', m, FAILED) <==> Is(s, m, FAILED)
    ensures forall m :: HasFailedAbove(env, s', m) <==> HasFailedAbove(env, s, m)
  {
  }

  lemma CausesAfterSuccess(env: Env, done: set<NodeId>, s: Snapshot, n: NodeId, s': Snapshot)
    requires ContinueOk(env, done, s) && JustSucceeds(s, n, s') && !HasFailedAbove(env, s, n)
    ensures SkippedHaveCause(env, s') && FreeNodesClean(env, s')
  {
    StatusesAfterSuccess(s, n, s');
    SameFailures(env, s, s');
  }

  lemma OutputsAfterSuccess(env: Env, done: set<NodeId>, s: Snapshot, n: NodeId, s': Snapshot)
    requires ContinueOk(env, done, s) && JustSucceeds(s, n, s')
    ensures OutputsExact(env, s') && FailedClosed(env, s')
  {
    StatusesAfterSuccess(s, n, s');
  }

  lemma ErrorsAfterSuccess(s: Snapshot, n: NodeId, s': Snapshot)
    requires JustSucceeds(s, n, s') && ErrorsMatch(s)
    ensures ErrorsMatch(s')
  {
    StatusesAfterSuccess(s, n, s');
    forall m | Is(s', m, FAILED) ensures ErrorRecorded(s', m) {
      assert ErrorRecorded(s, m);
    }
  }

  lemma ScopesAfterSuccess(env: Env, done: set<NodeId>, s: Snapshot, n: NodeId, s': Snapshot)
    requires ContinueOk(env, done, s) && JustSucceeds(s, n, s') && !FansOut(env, n) && !InSomeScope(env, n)
    ensures ScopesFollow(env, s') && EarlyResults(env, done + {n}, s')
  {
    StatusesAfterSuccess(s, n, s');
    forall it, m | FansOut(env, it) && it in s'.results && m in Below(env, it) ensures ScopeFollows(s', it, m) {
      assert ScopeFollows(s, it, m);
    }
    forall m | m in s'.results && m !in done + {n}
      ensures Is(s', m, SKIPPED) || InFinishedScope(env, done + {n}, s', m) {
      if !Is(s, m, SKIPPED) {
        assert InFinishedScope(env, done, s, m);
      }
    }
  }

  /** A plain node succeeds. */
  lemma ContinueSucceeds(env: Env, done: set<NodeId>, s: Snapshot, n: NodeId, s': Snapshot)
    requires ContinueOk(env, done, s) && Front(env, done, n) && !FansOut(env, n) && JustSucceeds(s, n, s')
    ensures ContinueOk(env, done + {n}, s')
  {
    FreshNode(env, done, s, n);
    CausesAfterSuccess(env, done, s, n, s');
    OutputsAfterSuccess(env, done, s, n, s');
    ErrorsAfterSuccess(s, n, s');
    ScopesAfterSuccess(env, done, s, n, s');
  }

  /** A node fails with its own error and what is below it and has no result is skipped: a plain
      node that fails, or an iterator that cannot produce its values. */
  ghost predicate FailsAndSkips(env: Env, s: Snapshot, n: NodeId, e: NodeError, s': Snapshot) {
    && e.node == n
    && s'.outputs == s.outputs
    && s'.results == SkipAll(s.results[n := FailedResult(e)], Below(env, n))
    && s'.errors == s.errors + [e]
  }

  lemma StatusesAfterFailure(env: Env, s: Snapshot, n: NodeId, e: NodeError, s': Snapshot)
    requires FailsAndSkips(env, s, n, e, s') && n !in s.results && n !in Below(env, n)
    ensures s'.results.Keys == s.results.Keys + {n} + Below(env, n)
    ensures forall m :: Is(s', m, FAILED) <==> m == n || Is(s, m, FAILED)
    ensures forall m :: Is(s', m, SUCCEEDED) <==> Is(s, m, SUCCEEDED)
    ensures forall m :: Is(s', m, SKIPPED) <==> Is(s, m, SKIPPED) || (m in Below(env, n) && m !in s.results)
  {
  }

  lemma ErrorsAfterFailure(env: Env, s: Snapshot, n: NodeId, e: NodeError, s': Snapshot)
    requires FailsAndSkips(env, s, n, e, s') && n !in s.results && n !in Below(env, n) && ErrorsMatch(s)
    ensures ErrorsMatch(s')
  {
    StatusesAfterFailure(env, s, n, e, s');
    assert Is(s', n, FAILED);
    assert s'.errors[|s.errors|] == e;
    forall m | Is(s', m, FAILED) ensures ErrorRecorded(s', m) {
      if m != n {
        assert ErrorRecorded(s, m);
        assert s'.results[m] == s.results[m];
      }
    }
  }

  lemma ScopesAfterFailure(env: Env, done: set<NodeId>, s: Snapshot, n: NodeId, e: NodeError, s': Snapshot,
                           it: NodeId, m: NodeId)
    requires ContinueOk(env, done, s) && Front(env, done, n) && n !in s.results && FailsAndSkips(env, s, n, e, s')
    requires FansOut(env, it) && it in s'.results && m in Below(env, it)
    ensures ScopeFollows(s', it, m)
  {
    StatusesAfterFailure(env, s, n, e, s');
    FreshNode(env, done, s, n);
    assert m != n;
    if it in s.results {
      assert ScopeFollows(s, it, m);
    } else {
      assert m in Below(env, n);
      if m in s.results {
        EarlyScopeIsSkipped(env, done, s, n, it, m);
      }
    }
  }

  lemma CausesAfterFailure(env: Env, done: set<NodeId>, s: Snapshot, n: NodeId, e: NodeError, s': Snapshot, m: NodeId)
    requires ContinueOk(env, done, s) && Front(env, done, n) && n !in s.results && FailsAndSkips(env, s, n, e, s')
    ensures Is(s', m, SKIPPED) ==> HasFailedAbove(env, s', m)
    ensures m in s'.results && !Is(s', m, SKIPPED) && !InSomeScope(env, m) ==> !HasFailedAbove(env, s', m)
  {
    StatusesAfterFailure(env, s, n, e, s');
    FreshNode(env, done, s, n);
    if Is(s, m, SKIPPED) {
      var a :| a in Above(env, m) && Is(s, a, FAILED);
      assert Is(s', a, FAILED);
    } else if Is(s', m, SKIPPED) {
      assert n in Above(env, m) && Is(s', n, FAILED);
    } else if m in s'.results && !InSomeScope(env, m) {
      assert m !in Below(env, n) by {
        assert InFinishedScope(env, done, s, m) ==> InSomeScope(env, m);
      }
      assert !HasFailedAbove(env, s, m);
      forall a | a in Above(env, m) ensures !Is(s', a, FAILED) {
        assert a != n;
      }
    }
  }

  lemma EarlyAfterFailure(env: Env, done: set<NodeId>, s: Snapshot, n: NodeId, e: NodeError, s': Snapshot)
    requires ContinueOk(env, done, s) && Front(env, done, n) && n !in s.results && FailsAndSkips(env, s, n, e, s')
    ensures EarlyResults(env, done + {n}, s')
  {
    StatusesAfterFailure(env, s, n, e, s');
    forall m | m in s'.results && m !in done + {n}
      ensures Is(s', m, SKIPPED) || InFinishedScope(env, done + {n}, s', m) {
      if m in s.results && !Is(s, m, SKIPPED) {
        assert InFinishedScope(env, done, s, m);
      }
    }
  }

  lemma OutputsAfterFailure(env: Env, done: set<NodeId>, s: Snapshot, n: NodeId, e: NodeError, s': Snapshot)
    requires ContinueOk(env, done, s) && Front(env, done, n) && n !in s.results && FailsAndSkips(env, s, n, e, s')
    ensures OutputsExact(env, s') && FailedClosed(env, s')
  {
    StatusesAfterFailure(env, s, n, e, s');
    FreshNode(env, done, s, n);
  }

  lemma ContinueFails(env: Env, done: set<NodeId>, s: Snapshot, n: NodeId, e: NodeError, s': Snapshot)
    requires ContinueOk(env, done, s) && Front(env, done, n) && n !in s.results && FailsAndSkips(env, s, n, e, s')
    ensures ContinueOk(env, done + {n}, s')
  {
    StatusesAfterFailure(env, s, n, e, s');
    ErrorsAfterFailure(env, s, n, e, s');
    EarlyAfterFailure(env, done, s, n, e, s');
    OutputsAfterFailure(env, done, s, n, e, s');
    forall it, m | FansOut(env, it) && it in s'.results && m in Below(env, it) ensures ScopeFollows(s', it, m) {
      ScopesAfterFailure(env, done, s, n, e, s', it, m);
    }
    forall m ensures Is(s', m, SKIPPED) ==> HasFailedAbove(env, s', m) {
      CausesAfterFailure(env, done, s, n, e, s', m);
    }
    forall m | m in s'.results && !Is(s', m, SKIPPED) && !InSomeScope(env, m) ensures !HasFailedAbove(env, s', m) {
      CausesAfterFailure(env, done, s, n, e, s', m);
    }
  }

  // ---------------------------------------------------------------- fan-in

  /** Failures of a fan-out lie in its scope and carry their own node's error. */
  ghost predicate FailuresWithin(failures: seq<Failure>, scope: set<NodeId>) {
    forall f :: f in failures ==> f.node in scope && f.error.node == f.node
  }

  lemma {:induction false} FirstErrorIs(failures: seq<Failure>, m: NodeId)
    ensures FirstErrorFor(failures, m).Some? <==> exists f :: f in failures && f.node == m
    ensures FirstErrorFor(failures, m).Some? ==>
              exists f :: f in failures && f.node == m && f.error == FirstErrorFor(failures, m).value
  {
    if failures != [] {
      FirstErrorIs(failures[1..], m);
      if failures[0].node == m {
        assert failures[0] in failures;
      } else if FirstErrorFor(failures[1..], m).Some? {
        var f :| f in failures[1..] && f.node == m && f.error == FirstErrorFor(failures[1..], m).value;
        assert f in failures;
      }
      assert forall f :: f in failures ==> f == failures[0] || f in failures[1..];
    }
  }

  /** After a fan-in a member failed exactly when some iteration failed in it, and reports such a
      failure's error. */
  lemma JoinBlames(s: Snapshot, s': Snapshot, members: set<NodeId>, failures: seq<Failure>, m: NodeId)
    requires Joined(s, s', members, failures) && m in members
    ensures Is(s', m, FAILED) <==> exists f :: f in failures && f.node == m
    ensures Is(s', m, SUCCEEDED) <==> !Is(s', m, FAILED)
    ensures Is(s', m, FAILED) ==> exists f :: f in failures && f.node == m && s'.results[m].error == Some(f.error)
  {
    FirstErrorIs(failures, m);
    assert ResultFor(s'.results[m], failures, m);
  }

  lemma ErrorInErrors(failures: seq<Failure>, f: Failure)
    requires f in failures
    ensures f.error in ErrorsOf(failures)
  {
    var i :| 0 <= i < |failures| && failures[i] == f;
    assert ErrorsOf(failures)[i] == f.error;
  }

  ghost predicate JoinsScope(env: Env, s: Snapshot, it: NodeId, failures: seq<Failure>, s': Snapshot) {
    && FansOut(env, it)
    && FailuresWithin(failures, Below(env, it))
    && Joined(s, s', {it} + Below(env, it), failures)
  }

  lemma StatusesAfterJoin(env: Env, done: set<NodeId>, s: Snapshot, it: NodeId, failures: seq<Failure>, s': Snapshot)
    requires ContinueOk(env, done, s) && Front(env, done, it) && it !in s.results
    requires JoinsScope(env, s, it, failures, s')
    ensures Is(s', it, SUCCEEDED)
    ensures forall m :: m in Below(env, it) ==>
            m in s'.results && !Is(s', m, SKIPPED) && !Is(s, m, FAILED) && !Is(s, m, SUCCEEDED)
    ensures forall m, status :: m != it && m !in Below(env, it) ==> (Is(s', m, status) <==> Is(s, m, status))
  {
    FirstErrorIs(failures, it);
    assert ResultFor(s'.results[it], failures, it);
    forall m | m in Below(env, it)
      ensures m in s'.results && !Is(s', m, SKIPPED) && !Is(s, m, FAILED) && !Is(s, m, SUCCEEDED) {
      assert ResultFor(s'.results[m], failures, m);
      if m in s.results {
        EarlyScopeIsSkipped(env, done, s, it, it, m);
      }
    }
  }

  lemma RecordedAfterJoin(env: Env, s: Snapshot, it: NodeId, failures: seq<Failure>, s': Snapshot, m: NodeId)
    requires JoinsScope(env, s, it, failures, s') && Is(s', m, FAILED)
    requires m !in {it} + Below(env, it) ==> ErrorRecorded(s, m)
    ensures ErrorRecorded(s', m)
  {
    if m in {it} + Below(env, it) {
      assert ResultFor(s'.results[m], failures, m);
      FirstErrorIs(failures, m);
      var f :| f in failures && f.node == m && f.error == FirstErrorFor(failures, m).value;
      ErrorInErrors(failures, f);
    }
  }

  lemma FailedAfterJoin(env: Env, s: Snapshot, it: NodeId, failures: seq<Failure>, s': Snapshot)
    requires JoinsScope(env, s, it, failures, s') && failures != []
    ensures SomeNodeFailed(s')
  {
    var f := failures[0];
    assert f in failures;
    FirstErrorIs(failures, f.node);
    assert ResultFor(s'.results[f.node], failures, f.node);
    assert Is(s', f.node, FAILED);
  }

  lemma ErrorsAfterJoin(env: Env, done: set<NodeId>, s: Snapshot, it: NodeId, failures: seq<Failure>, s': Snapshot)
    requires ContinueOk(env, done, s) && Front(env, done, it) && it !in s.results
    requires JoinsScope(env, s, it, failures, s')
    ensures ErrorsMatch(s')
  {
    StatusesAfterJoin(env, done, s, it, failures, s');
    forall m | Is(s', m, FAILED) ensures ErrorRecorded(s', m) {
      if m !in {it} + Below(env, it) {
        assert ErrorRecorded(s, m);
      }
      RecordedAfterJoin(env, s, it, failures, s', m);
    }
    if failures != [] {
      FailedAfterJoin(env, s, it, failures, s');
    }
    if SomeNodeFailed(s) {
      var a :| Is(s, a, FAILED);
      assert Is(s', a, FAILED);
    }
    SomeRecorded(s');
  }

  lemma SomeRecorded(s: Snapshot)
    requires forall m :: Is(s, m, FAILED) ==> ErrorRecorded(s, m)
    ensures SomeNodeFailed(s) ==> s.errors != []
  {
    if SomeNodeFailed(s) {
      var m :| Is(s, m, FAILED);
      assert ErrorRecorded(s, m);
    }
  }

  lemma OtherScope(env: Env, done: set<NodeId>, it: NodeId, other: NodeId, m: NodeId)
    requires Front(env, done, it) && FansOut(env, it) && FansOut(env, other) && other != it && m in Below(env, other)
    ensures other !in Below(env, it) && m != it && m !in Below(env, it)
  {
    assert Apart(env, other, it) && Apart(env, it, other);
  }

  lemma ScopesAfterJoin(env: Env, done: set<NodeId>, s: Snapshot, it: NodeId, failures: seq<Failure>, s': Snapshot,
                        other: NodeId, m: NodeId)
    requires ContinueOk(env, done, s) && Front(env, done, it) && it !in s.results
    requires JoinsScope(env, s, it, failures, s')
    requires FansOut(env, other) && other in s'.results && m in Below(env, other)
    ensures ScopeFollows(s', other, m)
  {
    StatusesAfterJoin(env, done, s, it, failures, s');
    if other != it {
      OtherScope(env, done, it, other, m);
      assert other in s.results;
      assert ScopeFollows(s, other, m);
    }
  }

  lemma CausesAfterJoin(env: Env, done: set<NodeId>, s: Snapshot, it: NodeId, failures: seq<Failure>, s': Snapshot,
                        m: NodeId)
    requires ContinueOk(env, done, s) && Front(env, done, it) && it !in s.results
    requires JoinsScope(env, s, it, failures, s')
    ensures Is(s', m, SKIPPED) ==> HasFailedAbove(env, s', m)
    ensures m in s'.results && !Is(s', m, SKIPPED) && !InSomeScope(env, m) ==> !HasFailedAbove(env, s', m)
  {
    StatusesAfterJoin(env, done, s, it, failures, s');
    FreshNode(env, done, s, it);
    if Is(s', m, SKIPPED) {
      assert Is(s, m, SKIPPED);
      var a :| a in Above(env, m) && Is(s, a, FAILED);
      assert Is(s', a, FAILED);
    } else if m in s'.results && !InSomeScope(env, m) {
      assert m !in Below(env, it);
      assert !HasFailedAbove(env, s, m);
      forall a | a in Above(env, m) ensures !Is(s', a, FAILED) {
        assert a in Below(env, it) ==> m in Below(env, it);
      }
    }
  }

  lemma ContinueJoins(env: Env, done: set<NodeId>, s: Snapshot, it: NodeId, failures: seq<Failure>, s': Snapshot)
    requires ContinueOk(env, done, s) && Front(env, done, it) && it !in s.results
    requires JoinsScope(env, s, it, failures, s')
    ensures ContinueOk(env, done + {it}, s')
  {
    StatusesAfterJoin(env, done, s, it, failures, s');
    ErrorsAfterJoin(env, done, s, it, failures, s');
    forall other, m | FansOut(env, other) && other in s'.results && m in Below(env, other)
      ensures ScopeFollows(s', other, m) {
      ScopesAfterJoin(env, done, s, it, failures, s', other, m);
    }
    forall m ensures Is(s', m, SKIPPED) ==> HasFailedAbove(env, s', m) {
      CausesAfterJoin(env, done, s, it, failures, s', m);
    }
    forall m | m in s'.results && !Is(s', m, SKIPPED) && !InSomeScope(env, m) ensures !HasFailedAbove(env, s', m) {
      CausesAfterJoin(env, done, s, it, failures, s', m);
    }
    EarlyAfterJoin(env, done, s, it, failures, s');
    OutputsAfterJoin(env, done, s, it, failures, s');
    ClosedAfterJoin(env, done, s, it, failures, s');
  }

  lemma EarlyAfterJoin(env: Env, done: set<NodeId>, s: Snapshot, it: NodeId, failures: seq<Failure>, s': Snapshot)
    requires ContinueOk(env, done, s) && Front(env, done, it) && it !in s.results
    requires JoinsScope(env, s, it, failures, s')
    ensures EarlyResults(env, done + {it}, s')
  {
    StatusesAfterJoin(env, done, s, it, failures, s');
    forall m | m in s'.results && m !in done + {it}
      ensures Is(s', m, SKIPPED) || InFinishedScope(env, done + {it}, s', m) {
      if m !in Below(env, it) && !Is(s, m, SKIPPED) {
        assert InFinishedScope(env, done, s, m);
        var other :| other in done && FansOut(env, other) && Is(s, other, SUCCEEDED) && m in Below(env, other);
        assert Apart(env, it, other);
        assert Is(s', other, SUCCEEDED);
      }
    }
  }

  lemma OutputsAfterJoin(env: Env, done: set<NodeId>, s: Snapshot, it: NodeId, failures: seq<Failure>, s': Snapshot)
    requires ContinueOk(env, done, s) && Front(env, done, it) && it !in s.results
    requires JoinsScope(env, s, it, failures, s')
    ensures OutputsExact(env, s')
  {
    StatusesAfterJoin(env, done, s, it, failures, s');
    forall n ensures n in s'.outputs <==> Is(s', n, SUCCEEDED) || (Is(s', n, FAILED) && InSomeScope(env, n)) {
      if n in Below(env, it) {
        assert InSomeScope(env, n);
      }
    }
  }

  lemma ClosedAfterJoin(env: Env, done: set<NodeId>, s: Snapshot, it: NodeId, failures: seq<Failure>, s': Snapshot)
    requires ContinueOk(env, done, s) && Front(env, done, it) && it !in s.results
    requires JoinsScope(env, s, it, failures, s')
    ensures FailedClosed(env, s')
  {
    StatusesAfterJoin(env, done, s, it, failures, s');
    forall a | Is(s', a, FAILED) ensures Below(env, a) <= s'.results.Keys {
      if a !in Below(env, it) {
        assert Is(s, a, FAILED);
      }
    }
  }

  // ---------------------------------------------------------------- the whole run

  const NOTHING := Snapshot(map[], map[], [])

  /** One node of a continue-on-error run, with its iterations run one after another. */
  ghost function SeqStep(env: Env, s: Snapshot, n: NodeId): Snapshot
    requires ValidEnv(env) && n in Nodes(env)
  {
    if n in s.results then s else if FansOut(env, n) then SeqFanout(env, s, n) else AfterNode(env, s, n).0
  }

  /** An iterator's fan-out, with its iterations run one after another. */
  ghost function SeqFanout(env: Env, s: Snapshot, n: NodeId): Snapshot
    requires ValidEnv(env) && n in Nodes(env)
  {
    BelowNodes(env, n);
    match PlanOf(env.rt, env.p, n, s.outputs)
    case Err(e) => PlanFails(env, s, n, e)
    case Ok(plan) =>
      JobIsValid(env, s.outputs, n, plan);
      FanoutJoins(env, s, n, plan, Sequential(JobOf(env, s.outputs, n, plan)))
  }

  /** The turns of the order's nodes. */
  ghost function SeqTurns(env: Env): (nat, Snapshot) -> Snapshot
    requires ValidEnv(env)
  {
    (k: nat, s: Snapshot) => if k < |env.order| && env.order[k] in Nodes(env) then SeqStep(env, s, env.order[k]) else s
  }

  /** The run after the first `k` nodes of the order. */
  ghost function SeqRun(env: Env, k: nat): Snapshot
    requires ValidEnv(env) && k <= |env.order|
  {
    Iterate(SeqTurns(env), NOTHING, k)
  }

  lemma SeqRunNext(env: Env, k: nat, s: Snapshot)
    requires ValidEnv(env) && k < |env.order| && env.order[k] in Nodes(env) && s == SeqRun(env, k)
    ensures SeqRun(env, k + 1) == SeqStep(env, s, env.order[k])
  {
  }

  // ---------------------------------------------------------------- single turns of a run

  /** The turn of a plain node without a result. */
  lemma PlainTurn(env: Env, k: nat, s: Snapshot, n: NodeId, r: Result<Outputs, NodeError>)
    requires ValidEnv(env) && k < |env.order| && env.order[k] == n && s == SeqRun(env, k)
    requires n in Nodes(env) && !FansOut(env, n) && n !in s.results
    requires ExecuteNode(env.rt, env.p, n, s.outputs, None) == r
    ensures SeqRun(env, k + 1) == Recorded(env, s, n, r)
  {
    SeqRunNext(env, k, s);
  }

  /** The turn of an iterator that produces its values. */
  lemma FanoutTurn(env: Env, k: nat, s: Snapshot, it: NodeId, plan: Plan) returns (job: Job)
    requires ValidEnv(env) && k < |env.order| && env.order[k] == it && s == SeqRun(env, k)
    requires it in Nodes(env) && FansOut(env, it) && it !in s.results
    requires PlanOf(env.rt, env.p, it, s.outputs) == Ok(plan)
    ensures job == JobOf(env, s.outputs, it, plan) && ValidJob(job)
    ensures Joined(s, SeqRun(env, k + 1), {it} + Below(env, it), Failures(Sequential(job)))
  {
    SeqRunNext(env, k, s);
    BelowNodes(env, it);
    JobIsValid(env, s.outputs, it, plan);
    job := JobOf(env, s.outputs, it, plan);
    JoinsAre(env, s, it, plan, Sequential(job));
  }

  /** The turn of an iterator without a result. */
  lemma IteratorTurn(env: Env, k: nat, s: Snapshot, it: NodeId)
    requires ValidEnv(env) && k < |env.order| && env.order[k] == it && s == SeqRun(env, k)
    requires it in Nodes(env) && FansOut(env, it) && it !in s.results
    ensures SeqRun(env, k + 1) == SeqFanout(env, s, it)
  {
    SeqRunNext(env, k, s);
  }

  /** The turn of a node with a result. */
  lemma IdleTurn(env: Env, k: nat, s: Snapshot)
    requires ValidEnv(env) && k < |env.order| && env.order[k] in Nodes(env) && s == SeqRun(env, k)
    requires env.order[k] in s.results
    ensures SeqRun(env, k + 1) == s
  {
    SeqRunNext(env, k, s);
  }

  lemma SequentialFailuresWithin(env: Env, outputs: View, it: NodeId, plan: Plan)
    requires ValidEnv(env)
    ensures var job := JobOf(env, outputs, it, plan);
            ValidJob(job) && FailuresWithin(Failures(Sequential(job)), Below(env, it))
  {
    JobIsValid(env, outputs, it, plan);
    var job := JobOf(env, outputs, it, plan);
    WithinScope(job, Below(env, it));
  }

  lemma WithinScope(job: Job, scope: set<NodeId>)
    requires ValidJob(job) && forall n :: n in job.scope ==> n in scope
    ensures FailuresWithin(Failures(Sequential(job)), scope)
  {
    var tasks := Sequential(job);
    forall i | 0 <= i < |tasks| && tasks[i].Failed?
      ensures tasks[i].failure.index == i && tasks[i].failure.node in job.scope
      ensures tasks[i].failure.error.node == tasks[i].failure.node
    {
      assert tasks[i] == Settled(job, i);
      FailureIndex(job, i);
    }
    FailuresAre(tasks);
    forall f | f in Failures(tasks) ensures f.node in scope && f.error.node == f.node {
      assert tasks[f.index] == Failed(f);
    }
  }

  lemma SequentialJoins(env: Env, done: set<NodeId>, s: Snapshot, n: NodeId, plan: Plan)
    requires ValidEnv(env) && Front(env, done, n) && ContinueOk(env, done, s) && n !in s.results && FansOut(env, n)
    ensures ValidJob(JobOf(env, s.outputs, n, plan))
    ensures ContinueOk(env, done + {n}, FanoutJoins(env, s, n, plan, Sequential(JobOf(env, s.outputs, n, plan))))
  {
    SequentialFailuresWithin(env, s.outputs, n, plan);
    var tasks := Sequential(JobOf(env, s.outputs, n, plan));
    JoinsAre(env, s, n, plan, tasks);
    ContinueJoins(env, done, s, n, Failures(tasks), FanoutJoins(env, s, n, plan, tasks));
  }

  lemma SeqFanoutOk(env: Env, done: set<NodeId>, s: Snapshot, n: NodeId)
    requires ValidEnv(env) && Front(env, done, n) && ContinueOk(env, done, s) && n !in s.results && FansOut(env, n)
    ensures ContinueOk(env, done + {n}, SeqFanout(env, s, n))
  {
    match PlanOf(env.rt, env.p, n, s.outputs)
    case Err(e) =>
      PlanErrorNode(env.rt, env.p, n, s.outputs);
      ContinueFails(env, done, s, n, e, PlanFails(env, s, n, e));
    case Ok(plan) => SequentialJoins(env, done, s, n, plan);
  }

  lemma RecordedOk(env: Env, done: set<NodeId>, s: Snapshot, n: NodeId, r: Result<Outputs, NodeError>)
    requires !env.failFast && Front(env, done, n) && ContinueOk(env, done, s) && n !in s.results && !FansOut(env, n)
    requires r.Err? ==> r.error.node == n
    ensures ContinueOk(env, done + {n}, Recorded(env, s, n, r))
  {
    match r
    case Err(e) => ContinueFails(env, done, s, n, e, NodeFails(env, s, n, e));
    case Ok(outputs) => ContinueSucceeds(env, done, s, n, NodeSucceeds(env, s, n, outputs));
  }

  /** Every step of a continue-on-error run keeps the invariant. */
  lemma SeqStepOk(env: Env, done: set<NodeId>, s: Snapshot, n: NodeId)
    requires ValidEnv(env) && !env.failFast && Front(env, done, n) && ContinueOk(env, done, s)
    ensures ContinueOk(env, done + {n}, SeqStep(env, s, n))
  {
    if n in s.results {
      ContinueExisting(env, done, s, n);
    } else if FansOut(env, n) {
      SeqFanoutOk(env, done, s, n);
    } else {
      RecordedOk(env, done, s, n, ExecuteNode(env.rt, env.p, n, s.outputs, None));
    }
  }

  lemma SeqStepAt(env: Env, k: nat, s: Snapshot)
    requires ValidEnv(env) && !env.failFast && k < |env.order| && env.order[k] in Nodes(env)
    requires ContinueOk(env, Elements(env.order[..k]), s)
    ensures ContinueOk(env, Elements(env.order[..k + 1]), SeqStep(env, s, env.order[k]))
  {
    FrontOf(env, k);
    PrefixGrows(env, k);
    SeqStepOk(env, Elements(env.order[..k]), s, env.order[k]);
  }

  lemma SeqRunOk(env: Env, k: nat)
    requires ValidEnv(env) && !env.failFast && k <= |env.order|
    ensures ContinueOk(env, Elements(env.order[..k]), SeqRun(env, k))
  {
    var step := SeqTurns(env);
    var inv := (j: nat, s: Snapshot) => j <= |env.order| && ContinueOk(env, Elements(env.order[..j]), s);
    OrderCovers(env);
    forall j: nat, s | j < k ensures Keeps(step, inv, j, s) {
      if inv(j, s) {
        SeqStepAt(env, j, s);
      }
    }
    assert Elements(env.order[..0]) == {};
    NothingOk(env);
    IterateKeeps(step, NOTHING, k, inv);
  }

  lemma NothingOk(env: Env)
    ensures ContinueOk(env, {}, NOTHING)
  {
    forall n, status ensures !Is(NOTHING, n, status) {}
  }

  /** A finished continue-on-error run: one result per node; it failed exactly when some node
      failed. A node of a scope is skipped exactly when its iterator did not succeed; any other
      node is skipped exactly when a node upstream of it failed. */
  ghost predicate ContinueLaws(env: Env, s: Snapshot) {
    && s.results.Keys == Nodes(env)
    && ErrorsMatch(s)
    && OutputsExact(env, s)
    && (forall n :: n in Nodes(env) && !InSomeScope(env, n) ==> (Is(s, n, SKIPPED) <==> HasFailedAbove(env, s, n)))
    && (forall it, n :: FansOut(env, it) && n in Below(env, it) ==> (Is(s, n, SKIPPED) <==> !Is(s, it, SUCCEEDED)))
    && SkippedHaveCause(env, s)
  }

  lemma ContinueEnds(env: Env, s: Snapshot)
    requires ContinueOk(env, Nodes(env), s)
    ensures ContinueLaws(env, s)
  {
    forall it, n | FansOut(env, it) && n in Below(env, it) ensures Is(s, n, SKIPPED) <==> !Is(s, it, SUCCEEDED) {
      assert it in Nodes(env);
      assert ScopeFollows(s, it, n);
    }
  }

  /** The laws of every accepted pipeline under continue-on-error, iterators included. */
  lemma SequentialRunLaws(env: Env)
    requires ValidEnv(env) && !env.failFast
    ensures ContinueLaws(env, SeqRun(env, |env.order|))
  {
    SeqRunOk(env, |env.order|);
    OrderCovers(env);
    assert env.order[..|env.order|] == env.order;
    ContinueEnds(env, SeqRun(env, |env.order|));
  }
}
