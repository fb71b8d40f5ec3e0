/** Runs of a state machine, and the one induction over them that the modules share. */
module Runs {
  ghost predicate IsRun<S(!new), O(!new)>(step: (S, O, S) -> bool, states: seq<S>, ops: seq<O>) {
    |states| == |ops| + 1 && forall n :: 0 <= n < |ops| ==> step(states[n], ops[n], states[n + 1])
  }

  /** What every step keeps holds throughout a run. */
  lemma {:induction false} Throughout<S(!new), O(!new)>(
    step: (S, O, S) -> bool, inv: S -> bool, states: seq<S>, ops: seq<O>, n: nat)
    requires IsRun(step, states, ops) && n < |states| && inv(states[0])
    requires forall a, o, b :: inv(a) && step(a, o, b) ==> inv(b)
    ensures inv(states[n])
  {
    if n > 0 {
      Throughout(step, inv, states, ops, n - 1);
    }
  }
}
