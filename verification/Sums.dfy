/** Sums of a weight over the elements of a sequence, and how one update changes them. */
module Sums {

  function SumTo<T>(xs: seq<T>, f: T -> int, n: nat): int
    requires n <= |xs|
  {
    if n == 0 then 0 else SumTo(xs, f, n - 1) + f(xs[n - 1])
  }

  function Sum<T>(xs: seq<T>, f: T -> int): int {
    SumTo(xs, f, |xs|)
  }

  lemma {:induction false} SumToSame<T>(xs: seq<T>, ys: seq<T>, f: T -> int, n: nat)
    requires n <= |xs| && n <= |ys| && forall i :: 0 <= i < n ==> xs[i] == ys[i]
    ensures SumTo(xs, f, n) == SumTo(ys, f, n)
  {
    if n > 0 {
      SumToSame(xs, ys, f, n - 1);
    }
  }

  lemma {:induction false} SumToUpdate<T>(xs: seq<T>, f: T -> int, i: nat, x: T, n: nat)
    requires i < n <= |xs|
    ensures SumTo(xs[i := x], f, n) == SumTo(xs, f, n) - f(xs[i]) + f(x)
  {
    if i == n - 1 {
      SumToSame(xs, xs[i := x], f, n - 1);
    } else {
      SumToUpdate(xs, f, i, x, n - 1);
    }
  }

  lemma SumUpdate<T>(xs: seq<T>, f: T -> int, i: nat, x: T)
    requires i < |xs|
    ensures Sum(xs[i := x], f) == Sum(xs, f) - f(xs[i]) + f(x)
  {
    SumToUpdate(xs, f, i, x, |xs|);
  }

  lemma SumAppend<T>(xs: seq<T>, f: T -> int, x: T)
    ensures Sum(xs + [x], f) == Sum(xs, f) + f(x)
  {
    SumToSame(xs, xs + [x], f, |xs|);
  }

  lemma {:induction false} SumToTail<T>(xs: seq<T>, f: T -> int, n: nat)
    requires 1 <= n <= |xs|
    ensures SumTo(xs[1..], f, n - 1) == SumTo(xs, f, n) - f(xs[0])
  {
    if n > 1 {
      SumToTail(xs, f, n - 1);
      assert xs[1..][n - 2] == xs[n - 1];
    }
  }

  lemma SumTail<T>(xs: seq<T>, f: T -> int)
    requires xs != []
    ensures Sum(xs[1..], f) == Sum(xs, f) - f(xs[0])
  {
    SumToTail(xs, f, |xs|);
  }

  lemma {:induction false} SumToBounds<T>(xs: seq<T>, f: T -> int, n: nat)
    requires n <= |xs| && forall x :: f(x) >= 0
    ensures SumTo(xs, f, n) >= 0
    ensures forall i :: 0 <= i < n ==> f(xs[i]) <= SumTo(xs, f, n)
  {
    if n > 0 {
      SumToBounds(xs, f, n - 1);
    }
  }

  lemma SumBounds<T>(xs: seq<T>, f: T -> int)
    requires forall x :: f(x) >= 0
    ensures Sum(xs, f) >= 0
    ensures forall i :: 0 <= i < |xs| ==> f(xs[i]) <= Sum(xs, f)
  {
    SumToBounds(xs, f, |xs|);
  }

  /** A positive sum of weights has a positive weight in it. */
  lemma SumWitness<T>(xs: seq<T>, f: T -> int) returns (i: nat)
    requires Sum(xs, f) > 0
    ensures i < |xs| && f(xs[i]) > 0
  {
    var n := |xs|;
    while f(xs[n - 1]) <= 0
      invariant 0 < n <= |xs| && SumTo(xs, f, n) > 0
      decreases n
    {
      n := n - 1;
    }
    i := n - 1;
  }

  lemma {:induction false} SumToZero<T>(xs: seq<T>, f: T -> int, n: nat)
    requires n <= |xs| && forall i :: 0 <= i < n ==> f(xs[i]) == 0
    ensures SumTo(xs, f, n) == 0
  {
    if n > 0 {
      SumToZero(xs, f, n - 1);
    }
  }

  lemma SumZero<T>(xs: seq<T>, f: T -> int)
    requires forall i :: 0 <= i < |xs| ==> f(xs[i]) == 0
    ensures Sum(xs, f) == 0
  {
    SumToZero(xs, f, |xs|);
  }

  lemma {:induction false} SumToTwo<T>(xs: seq<T>, f: T -> int, i: nat, j: nat, n: nat)
    requires forall x :: f(x) >= 0
    requires i < j < n <= |xs|
    ensures f(xs[i]) + f(xs[j]) <= SumTo(xs, f, n)
  {
    if j == n - 1 {
      SumToBounds(xs, f, n - 1);
    } else {
      SumToTwo(xs, f, i, j, n - 1);
    }
  }

  /** Two distinct places with positive weights. */
  lemma SumTwo<T>(xs: seq<T>, f: T -> int, i: nat, j: nat)
    requires forall x :: f(x) >= 0
    requires i < j < |xs|
    ensures f(xs[i]) + f(xs[j]) <= Sum(xs, f)
  {
    SumToTwo(xs, f, i, j, |xs|);
  }
}
