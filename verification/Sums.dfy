/** Sums over sequences, used to count threads and shards in a given state. */
module Sums {

  function Sum<T>(xs: seq<T>, f: T -> int): int {
    if |xs| == 0 then 0 else Sum(xs[..|xs| - 1], f) + f(xs[|xs| - 1])
  }

  /** Replacing one element changes the sum by the difference of the two weights. */
  lemma {:induction false} SumUpdate<T>(xs: seq<T>, i: nat, x: T, f: T -> int)
    requires i < |xs|
    ensures Sum(xs[i := x], f) == Sum(xs, f) - f(xs[i]) + f(x)
  {
    var last := |xs| - 1;
    if i == last {
      assert xs[i := x][..last] == xs[..last];
    } else {
      assert xs[i := x][..last] == xs[..last][i := x];
      SumUpdate(xs[..last], i, x, f);
    }
  }

  /** A sum of weights that are all zero is zero. */
  lemma {:induction false} SumZero<T>(xs: seq<T>, f: T -> int)
    requires forall i :: 0 <= i < |xs| ==> f(xs[i]) == 0
    ensures Sum(xs, f) == 0
  {
    if |xs| > 0 {
      SumZero(xs[..|xs| - 1], f);
    }
  }

  /** A sum of weights between 0 and 1 lies between any one of its weights and the number of elements. */
  lemma {:induction false} SumBounds<T>(xs: seq<T>, f: T -> int)
    requires forall i :: 0 <= i < |xs| ==> 0 <= f(xs[i]) <= 1
    ensures 0 <= Sum(xs, f) <= |xs|
    ensures forall i :: 0 <= i < |xs| ==> f(xs[i]) <= Sum(xs, f)
    ensures Sum(xs, f) > 0 ==> exists i :: 0 <= i < |xs| && f(xs[i]) == 1
  {
    if |xs| > 0 {
      var front := xs[..|xs| - 1];
      SumBounds(front, f);
      if Sum(xs, f) > 0 && f(xs[|xs| - 1]) != 1 {
        var i :| 0 <= i < |front| && f(front[i]) == 1;
        assert f(xs[i]) == 1;
      }
      forall i | 0 <= i < |xs| ensures f(xs[i]) <= Sum(xs, f) {
        if i < |front| {
          assert xs[i] == front[i];
        }
      }
    }
  }
}
