/** Iterating a step, and what every step keeps. */
module Runs {

  function Iterate<S>(step: S -> S, s: S, n: nat): S
    decreases n
  {
    if n == 0 then s else Iterate(step, step(s), n - 1)
  }

  /** What holds after `k` steps, and is kept by the next one, holds after any number of them. */
  lemma {:induction false} IterateKeeps<S(!new)>(step: S -> S, inv: (S, nat) -> bool, s: S, n: nat, k: nat)
    requires forall x, i: nat :: inv(x, i) ==> inv(step(x), i + 1)
    requires inv(s, k)
    ensures inv(Iterate(step, s, n), k + n)
    decreases n
  {
    if n > 0 {
      IterateKeeps(step, inv, step(s), n - 1, k + 1);
    }
  }
}
