/** Runs of a transition relation: states, and the inputs between them. */
module Runs {
  /** xs leads through the states ss. */
  ghost predicate Run<S(!new), X(!new)>(step: (S, X, S) -> bool, ss: seq<S>, xs: seq<X>) {
    |ss| == |xs| + 1 && forall k :: 0 <= k < |xs| ==> At(step, ss, xs, k)
  }

  ghost predicate At<S(!new), X(!new)>(step: (S, X, S) -> bool, ss: seq<S>, xs: seq<X>, k: nat)
    requires k < |xs| && |ss| == |xs| + 1
  {
    step(ss[k], xs[k], ss[k + 1])
  }

  ghost predicate Keeps<S(!new), X(!new)>(step: (S, X, S) -> bool, good: S -> bool) {
    forall s, x, s' :: good(s) && step(s, x, s') ==> good(s')
  }

  /** What holds in state m and is kept by every step holds in every later state. */
  lemma {:induction false} Onwards<S(!new), X(!new)>(step: (S, X, S) -> bool, good: S -> bool, ss: seq<S>, xs: seq<X>,
                                                    m: nat, k: nat)
    requires Run(step, ss, xs) && Keeps(step, good) && m <= k < |ss| && good(ss[m])
    ensures good(ss[k])
    decreases k
  {
    if k == m {
    } else {
      Onwards(step, good, ss, xs, m, k - 1);
      assert At(step, ss, xs, k - 1);
    }
  }

  lemma Extend<S(!new), X(!new)>(step: (S, X, S) -> bool, ss: seq<S>, xs: seq<X>, x: X, s: S)
    requires Run(step, ss, xs) && step(ss[|xs|], x, s)
    ensures Run(step, ss + [s], xs + [x])
  {
    forall k | 0 <= k < |xs| + 1 ensures At(step, ss + [s], xs + [x], k) {
      assert k < |xs| ==> At(step, ss, xs, k);
    }
  }

  lemma Here<S(!new), X(!new)>(step: (S, X, S) -> bool, ss: seq<S>, xs: seq<X>, k: nat)
    requires Run(step, ss, xs) && k < |xs|
    ensures step(ss[k], xs[k], ss[k + 1])
  {
    assert At(step, ss, xs, k);
  }
}
