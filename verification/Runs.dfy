/** Runs of a step relation, and what they keep. */
module Runs {
  /** One step after the other. */
  ghost predicate IsRun<S, E>(ss: seq<S>, es: seq<E>, step: (S, E, S) -> bool) {
    && |ss| == |es| + 1
    && forall i | 0 <= i < |es| :: step(ss[i], es[i], ss[i + 1])
  }

  /** What no step breaks holds ever after. */
  lemma {:induction false} InvariantHolds<S(!new), E(!new)>(ss: seq<S>, es: seq<E>, step: (S, E, S) -> bool, inv: S -> bool, i: nat, j: nat)
    requires IsRun(ss, es, step)
    requires forall s, e, s' | inv(s) && step(s, e, s') :: inv(s')
    requires i <= j <= |es| && inv(ss[i])
    ensures inv(ss[j])
    decreases j
  {
    if i < j {
      InvariantHolds(ss, es, step, inv, i, j - 1);
      assert step(ss[j - 1], es[j - 1], ss[j]);
    }
  }
}
