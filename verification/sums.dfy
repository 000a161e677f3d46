/** Sums of weights, for termination measures. */
module Sums {
  function Sum(w: seq<nat>): nat {
    if w == [] then 0 else Sum(w[..|w| - 1]) + w[|w| - 1]
  }

  lemma {:induction false} SumUpdate(w: seq<nat>, i: nat, x: nat)
    requires i < |w|
    ensures Sum(w[i := x]) == Sum(w) - w[i] + x
  {
    if i == |w| - 1 {
      assert w[i := x][..|w| - 1] == w[..|w| - 1];
    } else {
      assert w[i := x][..|w| - 1] == w[..|w| - 1][i := x];
      SumUpdate(w[..|w| - 1], i, x);
    }
  }

  lemma SumAppend(w: seq<nat>, x: nat)
    ensures Sum(w + [x]) == Sum(w) + x
  {
    assert (w + [x])[..|w|] == w;
  }
}
