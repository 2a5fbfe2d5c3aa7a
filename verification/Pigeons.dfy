/** The pigeonhole principle on sequences. */
module Pigeons {

  /** More values than a bound on them: two agree. */
  lemma {:induction false} Pigeonhole(path: seq<nat>, n: nat) returns (i: nat, k: nat)
    requires (forall j :: 0 <= j < |path| ==> path[j] < n) && |path| > n
    ensures i < k < |path| && path[i] == path[k]
    decreases n
  {
    if j0 :| 0 <= j0 < |path| - 1 && path[j0] == path[|path| - 1] {
      return j0, |path| - 1;
    }
    var last := path[|path| - 1];
    // Squeeze out the value of the last element and look among the others.
    var squeezed := seq(|path| - 1, j requires 0 <= j < |path| - 1 => if path[j] == n - 1 then last else path[j]);
    i, k := Pigeonhole(squeezed, n - 1);
  }
}
