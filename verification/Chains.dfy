/** Steps in a row, each on the previous one's value; what every step keeps, the chain keeps. The
    steps are function values, so an induction over a chain never looks inside a step. */
module Chains {
  import opened Wrappers

  // ---------------------------------------------------------------- steps that may fail

  /** `k` steps in a row until one fails. */
  ghost function Chain<S, E>(step: (nat, S) -> Result<S, E>, seed: S, k: nat): Result<S, E> {
    if k == 0 then Ok(seed)
    else
      var before := Chain(step, seed, k - 1);
      if before.Err? then before else step(k - 1, before.value)
  }

  lemma ChainNext<S, E>(step: (nat, S) -> Result<S, E>, seed: S, k: nat)
    ensures var before := Chain(step, seed, k);
            Chain(step, seed, k + 1) == if before.Err? then before else step(k, before.value)
  {
  }

  lemma {:induction false} ChainSticks<S, E>(step: (nat, S) -> Result<S, E>, seed: S, k: nat, m: nat)
    requires k <= m && Chain(step, seed, k).Err?
    ensures Chain(step, seed, m) == Chain(step, seed, k)
    decreases m - k
  {
    if k < m {
      ChainNext(step, seed, k);
      ChainSticks(step, seed, k + 1, m);
    }
  }

  lemma ChainAdvance<S, E>(step: (nat, S) -> Result<S, E>, seed: S, k: nat, m: nat, local: S)
    requires k < m && Chain(step, seed, k) == Ok(local)
    ensures Chain(step, seed, k + 1) == step(k, local)
    ensures step(k, local).Err? ==> Chain(step, seed, m) == step(k, local)
  {
    ChainNext(step, seed, k);
    if step(k, local).Err? {
      ChainSticks(step, seed, k + 1, m);
    }
  }

  ghost predicate FailsLike<S, E>(step: (nat, S) -> Result<S, E>, like: E -> bool, k: nat, s: S) {
    step(k, s).Err? ==> like(step(k, s).error)
  }

  /** What every failing step's error is like, the chain's error is like. */
  lemma {:induction false} ChainErrors<S, E>(step: (nat, S) -> Result<S, E>, seed: S, k: nat, like: E -> bool)
    requires forall j: nat, s :: j < k ==> FailsLike(step, like, j, s)
    ensures Chain(step, seed, k).Err? ==> like(Chain(step, seed, k).error)
  {
    if k > 0 {
      ChainErrors(step, seed, k - 1, like);
      var before := Chain(step, seed, k - 1);
      if before.Ok? {
        assert FailsLike(step, like, k - 1, before.value);
      }
    }
  }

  ghost predicate StepKeeps<S, E>(step: (nat, S) -> Result<S, E>, inv: (nat, S) -> bool, k: nat, s: S) {
    inv(k, s) && step(k, s).Ok? ==> inv(k + 1, step(k, s).value)
  }

  /** What the seed satisfies and every step keeps, the chain's value satisfies. */
  lemma {:induction false} ChainKeeps<S, E>(step: (nat, S) -> Result<S, E>, seed: S, k: nat, inv: (nat, S) -> bool)
    requires inv(0, seed)
    requires forall j: nat, s :: j < k ==> StepKeeps(step, inv, j, s)
    ensures Chain(step, seed, k).Ok? ==> inv(k, Chain(step, seed, k).value)
  {
    if k > 0 {
      ChainKeeps(step, seed, k - 1, inv);
      var before := Chain(step, seed, k - 1);
      if before.Ok? {
        assert StepKeeps(step, inv, k - 1, before.value);
      }
    }
  }

  ghost predicate SameStep<S, E>(f: (nat, S) -> Result<S, E>, g: (nat, S) -> Result<S, E>, k: nat, s: S) {
    f(k, s) == g(k, s)
  }

  lemma {:induction false} ChainSame<S, E>(f: (nat, S) -> Result<S, E>, g: (nat, S) -> Result<S, E>, seed: S, k: nat)
    requires forall j: nat, s :: j < k ==> SameStep(f, g, j, s)
    ensures Chain(f, seed, k) == Chain(g, seed, k)
  {
    if k > 0 {
      ChainSame(f, g, seed, k - 1);
      var before := Chain(f, seed, k - 1);
      if before.Ok? {
        assert SameStep(f, g, k - 1, before.value);
      }
    }
  }

  ghost predicate FailsLikeUnder<S, E>(step: (nat, S) -> Result<S, E>, inv: (nat, S) -> bool, like: E -> bool,
                                       k: nat, s: S) {
    inv(k, s) && step(k, s).Err? ==> like(step(k, s).error)
  }

  /** The same of errors, where every step keeps an invariant. */
  lemma {:induction false} ChainErrorsUnder<S, E>(step: (nat, S) -> Result<S, E>, seed: S, k: nat,
                                                  inv: (nat, S) -> bool, like: E -> bool)
    requires inv(0, seed)
    requires forall j: nat, s :: j < k ==> StepKeeps(step, inv, j, s)
    requires forall j: nat, s :: j < k ==> FailsLikeUnder(step, inv, like, j, s)
    ensures Chain(step, seed, k).Err? ==> like(Chain(step, seed, k).error)
  {
    if k > 0 {
      ChainErrorsUnder(step, seed, k - 1, inv, like);
      var before := Chain(step, seed, k - 1);
      if before.Ok? {
        ChainKeeps(step, seed, k - 1, inv);
        assert FailsLikeUnder(step, inv, like, k - 1, before.value);
      }
    }
  }

  ghost predicate StepsTo<S, E>(step: (nat, S) -> Result<S, E>, f: nat -> S, k: nat) {
    step(k, f(k)) == Ok(f(k + 1))
  }

  /** A chain follows states of which each steps to the next. */
  lemma {:induction false} ChainFollows<S, E>(step: (nat, S) -> Result<S, E>, f: nat -> S, k: nat)
    requires forall j: nat :: j < k ==> StepsTo(step, f, j)
    ensures Chain(step, f(0), k) == Ok(f(k))
  {
    if k > 0 {
      ChainFollows(step, f, k - 1);
      assert StepsTo(step, f, k - 1);
    }
  }

  // ---------------------------------------------------------------- steps that always succeed

  /** `k` steps in a row. */
  ghost function Iterate<S>(step: (nat, S) -> S, seed: S, k: nat): S {
    if k == 0 then seed else step(k - 1, Iterate(step, seed, k - 1))
  }

  ghost predicate Keeps<S>(step: (nat, S) -> S, inv: (nat, S) -> bool, k: nat, s: S) {
    inv(k, s) ==> inv(k + 1, step(k, s))
  }

  /** What the seed satisfies and every step keeps holds after `k` steps. */
  lemma {:induction false} IterateKeeps<S>(step: (nat, S) -> S, seed: S, k: nat, inv: (nat, S) -> bool)
    requires inv(0, seed)
    requires forall j: nat, s :: j < k ==> Keeps(step, inv, j, s)
    ensures inv(k, Iterate(step, seed, k))
  {
    if k > 0 {
      IterateKeeps(step, seed, k - 1, inv);
      assert Keeps(step, inv, k - 1, Iterate(step, seed, k - 1));
    }
  }

  // ---------------------------------------------------------------- traces

  /** Each state leads to the next. */
  ghost predicate Linked<S>(trace: seq<S>, step: (nat, S, S) -> bool) {
    forall k: nat :: k + 1 < |trace| ==> LinkedAt(trace, step, k)
  }

  ghost predicate LinkedAt<S>(trace: seq<S>, step: (nat, S, S) -> bool, k: nat)
    requires k + 1 < |trace|
  {
    step(k, trace[k], trace[k + 1])
  }

  lemma LinkedSnoc<S>(trace: seq<S>, step: (nat, S, S) -> bool, next: S)
    requires trace != [] && Linked(trace, step) && step(|trace| - 1, trace[|trace| - 1], next)
    ensures Linked(trace + [next], step)
  {
    var longer := trace + [next];
    forall k: nat | k + 1 < |longer| ensures LinkedAt(longer, step, k) {
      if k + 1 < |trace| {
        assert LinkedAt(trace, step, k);
      }
    }
  }

  ghost predicate Preserves<S>(step: (nat, S, S) -> bool, inv: (nat, S) -> bool, k: nat, s: S, s': S) {
    step(k, s, s') && inv(k, s) ==> inv(k + 1, s')
  }

  /** What the first state satisfies and every step preserves, every state satisfies. */
  lemma {:induction false} LinkedKeeps<S>(trace: seq<S>, step: (nat, S, S) -> bool, inv: (nat, S) -> bool, k: nat)
    requires k < |trace| && Linked(trace, step) && inv(0, trace[0])
    requires forall j: nat, s, s' :: j + 1 < |trace| ==> Preserves(step, inv, j, s, s')
    ensures inv(k, trace[k])
    decreases k
  {
    if k > 0 {
      LinkedKeeps(trace, step, inv, k - 1);
      assert LinkedAt(trace, step, k - 1);
      assert Preserves(step, inv, k - 1, trace[k - 1], trace[k]);
    }
  }

  ghost predicate GrowsAt<T(!new)>(f: nat -> seq<T>, k: nat) {
    f(k) <= f(k + 1)
  }

  lemma {:induction false} PrefixesGrow<T(!new)>(f: nat -> seq<T>, j: nat, k: nat)
    requires j <= k && forall m: nat :: j <= m < k ==> GrowsAt(f, m)
    ensures f(j) <= f(k)
    decreases k - j
  {
    if j < k {
      PrefixesGrow(f, j, k - 1);
      assert GrowsAt(f, k - 1);
    }
  }

  ghost predicate Transits<S(!new)>(rel: (S, S) -> bool, a: S, b: S, c: S) {
    rel(a, b) && rel(b, c) ==> rel(a, c)
  }

  ghost predicate RelatedAt<S(!new)>(f: nat -> S, rel: (S, S) -> bool, k: nat) {
    rel(f(k), f(k + 1))
  }

  /** A reflexive and transitive relation between neighbours relates any two. */
  lemma {:induction false} Accumulates<S(!new)>(f: nat -> S, rel: (S, S) -> bool, j: nat, k: nat)
    requires j <= k && rel(f(j), f(j)) && forall a, b, c :: Transits(rel, a, b, c)
    requires forall m: nat :: j <= m < k ==> RelatedAt(f, rel, m)
    ensures rel(f(j), f(k))
    decreases k - j
  {
    if j < k {
      Accumulates(f, rel, j, k - 1);
      assert RelatedAt(f, rel, k - 1);
      assert Transits(rel, f(j), f(k - 1), f(k));
    }
  }
}
