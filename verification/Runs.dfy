/** Finite runs of a step function that may refuse a step. */
module Runs {
  import opened Common

  /** The state after a whole run from `init`; `None` if some step was not enabled. */
  ghost function Run<S, T>(next: (S, T) -> Option<S>, init: S, steps: seq<T>): Option<S> {
    if steps == [] then Some(init)
    else
      var before := Run(next, init, steps[..|steps| - 1]);
      if before.None? then None else next(before.value, steps[|steps| - 1])
  }

  lemma {:induction false} Extend<S, T>(next: (S, T) -> Option<S>, init: S, steps: seq<T>, s: S, step: T)
    returns (steps': seq<T>, s': S)
    requires Run(next, init, steps) == Some(s) && next(s, step).Some?
    ensures Run(next, init, steps') == Some(s') && Some(s') == next(s, step)
    ensures forall x :: x in steps' <==> x in steps || x == step
  {
    steps', s' := steps + [step], next(s, step).value;
    assert steps'[..|steps|] == steps;
  }

  /** A run followed by a run from its last state is a run. */
  lemma {:induction false} Concatenate<S, T>(next: (S, T) -> Option<S>, init: S, steps: seq<T>, s: S, more: seq<T>)
    requires Run(next, init, steps) == Some(s)
    ensures Run(next, init, steps + more) == Run(next, s, more)
  {
    if more == [] {
      assert steps + more == steps;
    } else {
      var n := |more| - 1;
      Concatenate(next, init, steps, s, more[..n]);
      assert (steps + more)[..|steps| + n] == steps + more[..n];
    }
  }

  lemma {:induction false} Prefix<S, T>(next: (S, T) -> Option<S>, init: S, steps: seq<T>, k: nat)
    requires k <= |steps| && Run(next, init, steps).Some?
    ensures Run(next, init, steps[..k]).Some?
  {
    if k < |steps| {
      Prefix(next, init, steps[..|steps| - 1], k);
      assert steps[..|steps| - 1][..k] == steps[..k];
    } else {
      assert steps[..k] == steps;
    }
  }

  /** What is left of a run after its first `k` steps is a run from the state reached by then. */
  lemma {:induction false} Suffix<S, T>(next: (S, T) -> Option<S>, init: S, steps: seq<T>, k: nat)
    requires k <= |steps| && Run(next, init, steps).Some?
    ensures Run(next, init, steps[..k]).Some?
    ensures Run(next, Run(next, init, steps[..k]).value, steps[k..]) == Run(next, init, steps)
  {
    Prefix(next, init, steps, k);
    Concatenate(next, init, steps[..k], Run(next, init, steps[..k]).value, steps[k..]);
    assert steps[..k] + steps[k..] == steps;
  }
}
