/** Sums over sequences, changed one element at a time. */
module Sums {
  function Sum<T>(xs: seq<T>, weight: T -> nat): nat {
    if xs == [] then 0 else weight(xs[0]) + Sum(xs[1..], weight)
  }

  lemma {:induction false} SumUpdate<T>(xs: seq<T>, i: nat, x: T, weight: T -> nat)
    requires i < |xs|
    ensures Sum(xs[i := x], weight) + weight(xs[i]) == Sum(xs, weight) + weight(x)
  {
    if i == 0 {
      assert xs[i := x][1..] == xs[1..];
    } else {
      SumUpdate(xs[1..], i - 1, x, weight);
      assert xs[i := x][1..] == xs[1..][i - 1 := x];
    }
  }

  lemma {:induction false} SumAppend<T>(xs: seq<T>, x: T, weight: T -> nat)
    ensures Sum(xs + [x], weight) == Sum(xs, weight) + weight(x)
  {
    if xs == [] {
      assert xs + [x] == [x];
    } else {
      SumAppend(xs[1..], x, weight);
      assert (xs + [x])[1..] == xs[1..] + [x];
    }
  }

  lemma {:induction false} SumAtLeast<T>(xs: seq<T>, i: nat, weight: T -> nat)
    requires i < |xs|
    ensures weight(xs[i]) <= Sum(xs, weight)
  {
    if i > 0 {
      SumAtLeast(xs[1..], i - 1, weight);
    }
  }

  lemma {:induction false} SumOfZeros<T>(xs: seq<T>, weight: T -> nat)
    requires forall x | x in xs :: weight(x) == 0
    ensures Sum(xs, weight) == 0
  {
    if xs != [] {
      SumOfZeros(xs[1..], weight);
    }
  }

  lemma {:induction false} SumOfEquals<T>(xs: seq<T>, weight: T -> nat, each: nat)
    requires forall x | x in xs :: weight(x) == each
    ensures Sum(xs, weight) == |xs| * each
  {
    if xs != [] {
      SumOfEquals(xs[1..], weight, each);
    }
  }

  function Ones<T>(xs: seq<T>, weight: T -> nat): set<int> {
    set i | 0 <= i < |xs| && weight(xs[i]) == 1
  }

  /** Weights of at most one count the places that have it. */
  lemma {:induction false} SumCountsOnes<T>(xs: seq<T>, weight: T -> nat)
    requires forall x :: weight(x) <= 1
    ensures Sum(xs, weight) == |Ones(xs, weight)|
    decreases |xs|
  {
    if xs == [] {
      assert Ones(xs, weight) == {};
    } else {
      var last := |xs| - 1;
      var before := xs[..last];
      assert xs == before + [xs[last]];
      SumAppend(before, xs[last], weight);
      SumCountsOnes(before, weight);
      assert Ones(xs, weight) == Ones(before, weight) + if weight(xs[last]) == 1 then {last} else {};
    }
  }
}
