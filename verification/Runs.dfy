/**
 Runs of a state machine, shared by the models of the concurrent protocols.  A machine is
 given by a predicate on its initial states and a relation between a state and the next one.
 */
module Runs {

  /** `run` starts in an initial state and each of its states follows from the one before in one step. */
  ghost predicate IsRun<S(!new)>(init: S -> bool, next: (S, S) -> bool, run: seq<S>)
  {
    && |run| > 0
    && init(run[0])
    && forall i :: 0 < i < |run| ==> next(run[i - 1], run[i])
  }

  lemma Extend<S(!new)>(init: S -> bool, next: (S, S) -> bool, run: seq<S>, s: S)
    requires IsRun(init, next, run) && next(run[|run| - 1], s)
    ensures IsRun(init, next, run + [s])
  {
  }

  /** What every step keeps holds from a state of a run on, if it holds there. */
  lemma {:induction false} Persistence<S(!new)>(
    init: S -> bool, next: (S, S) -> bool, inv: S -> bool, run: seq<S>, i: nat, k: nat)
    requires IsRun(init, next, run) && i <= k < |run| && inv(run[i])
    requires forall s, s' :: inv(s) && next(s, s') ==> inv(s')
    ensures inv(run[k])
  {
    if i == k {
    } else {
      Persistence(init, next, inv, run, i, k - 1);
      assert next(run[k - 1], run[k]);
    }
  }

  /** What holds initially and is kept by every step holds in every state of every run. */
  lemma Invariance<S(!new)>(
    init: S -> bool, next: (S, S) -> bool, inv: S -> bool, run: seq<S>, k: nat)
    requires IsRun(init, next, run) && k < |run|
    requires forall s :: init(s) ==> inv(s)
    requires forall s, s' :: inv(s) && next(s, s') ==> inv(s')
    ensures inv(run[k])
  {
    Persistence(init, next, inv, run, 0, k);
  }

  /** The step at which a property that held at `run[i]` was lost, if it does not hold at `run[j]`. */
  lemma {:induction false} LastBefore<S(!new)>(run: seq<S>, p: S -> bool, i: nat, j: nat) returns (k: nat)
    requires i <= j < |run| && p(run[i]) && !p(run[j])
    ensures i <= k < j && p(run[k]) && !p(run[k + 1])
    decreases j - i
  {
    if p(run[i + 1]) {
      k := LastBefore(run, p, i + 1, j);
    } else {
      k := i;
    }
  }

  /** What no step changes is in every state of a run what it was in the first. */
  lemma {:induction false} Constancy<S(!new), T>(
    init: S -> bool, next: (S, S) -> bool, value: S -> T, run: seq<S>, k: nat)
    requires IsRun(init, next, run) && k < |run|
    requires forall s, s' :: next(s, s') ==> value(s') == value(s)
    ensures value(run[k]) == value(run[0])
  {
    if k == 0 {
    } else {
      Constancy(init, next, value, run, k - 1);
      assert next(run[k - 1], run[k]);
    }
  }
}
