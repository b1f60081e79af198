/** Runs of a step relation, and induction over them. */
module Induction {

  /** `s` is a state `s0` can have become after `k` steps; step `i` is allowed by `step(i, _, _)`. */
  ghost predicate Steps<S(!new)>(step: (nat, S, S) -> bool, k: nat, s0: S, s: S) {
    if k == 0 then s == s0
    else
      var i := k - 1;
      exists m :: Steps(step, i, s0, m) && step(i, m, s)
  }

  lemma StepsNext<S(!new)>(step: (nat, S, S) -> bool, k: nat, s0: S, m: S, s: S)
    requires Steps(step, k, s0, m) && step(k, m, s)
    ensures Steps(step, k + 1, s0, s)
  {
    var i := k + 1 - 1;
    assert Steps(step, i, s0, m) && step(i, m, s);
  }

  /** What holds at the start and is kept by every step holds after every run. */
  lemma {:induction false} StepsInduct<S(!new)>(step: (nat, S, S) -> bool, inv: (nat, S) -> bool, k: nat, s0: S, s: S)
    requires Steps(step, k, s0, s) && inv(0, s0)
    requires forall i: nat, m, m' :: i < k && inv(i, m) && step(i, m, m') ==> inv(i + 1, m')
    ensures inv(k, s)
  {
    if k == 0 {
    } else {
      var i := k - 1;
      var m :| Steps(step, i, s0, m) && step(i, m, s);
      StepsInduct(step, inv, i, s0, m);
      assert inv(i, m) && step(i, m, s);
      assert inv(i + 1, s);
    }
  }
}
