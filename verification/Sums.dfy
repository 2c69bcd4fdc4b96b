/** Adding up a measure over the threads of a kind. */
module Sums {

  function SumTo<T>(xs: seq<T>, f: T -> nat, n: nat): nat
    requires n <= |xs|
  {
    if n == 0 then 0 else SumTo(xs, f, n - 1) + f(xs[n - 1])
  }

  function Sum<T>(xs: seq<T>, f: T -> nat): nat {
    SumTo(xs, f, |xs|)
  }

  lemma {:induction false} SumToUpdate<T>(xs: seq<T>, f: T -> nat, i: nat, x: T, n: nat)
    requires i < |xs| && n <= |xs|
    ensures SumTo(xs[i := x], f, n) == SumTo(xs, f, n) + (if i < n then f(x) - f(xs[i]) else 0)
  {
    if n > 0 {
      SumToUpdate(xs, f, i, x, n - 1);
    }
  }

  lemma SumUpdate<T>(xs: seq<T>, f: T -> nat, i: nat, x: T)
    requires i < |xs|
    ensures Sum(xs[i := x], f) == Sum(xs, f) - f(xs[i]) + f(x)
    ensures f(xs[i]) <= Sum(xs, f)
  {
    SumToUpdate(xs, f, i, x, |xs|);
    SumMember(xs, f, i, |xs|);
  }

  lemma {:induction false} SumMember<T>(xs: seq<T>, f: T -> nat, i: nat, n: nat)
    requires i < n <= |xs|
    ensures f(xs[i]) <= SumTo(xs, f, n)
  {
    if i < n - 1 {
      SumMember(xs, f, i, n - 1);
    }
  }

  lemma {:induction false} SumPrefix<T>(xs: seq<T>, f: T -> nat, x: T, n: nat)
    requires n <= |xs|
    ensures SumTo(xs + [x], f, n) == SumTo(xs, f, n)
  {
    if n > 0 {
      SumPrefix(xs, f, x, n - 1);
    }
  }

  lemma SumAppend<T>(xs: seq<T>, f: T -> nat, x: T)
    ensures Sum(xs + [x], f) == Sum(xs, f) + f(x)
  {
    SumPrefix(xs, f, x, |xs|);
  }

  /** A sum that is not zero has a term that is not. */
  lemma {:induction false} SumWitness<T>(xs: seq<T>, f: T -> nat, n: nat) returns (i: nat)
    requires n <= |xs| && SumTo(xs, f, n) > 0
    ensures i < n && f(xs[i]) > 0
  {
    if f(xs[n - 1]) > 0 {
      i := n - 1;
    } else {
      i := SumWitness(xs, f, n - 1);
    }
  }

  lemma {:induction false} SumOfZeros<T>(xs: seq<T>, f: T -> nat, n: nat)
    requires n <= |xs| && forall i :: 0 <= i < n ==> f(xs[i]) == 0
    ensures SumTo(xs, f, n) == 0
  {
    if n > 0 {
      SumOfZeros(xs, f, n - 1);
    }
  }

  /** Changing every term by a function that does not raise the measure. */
  lemma {:induction false} SumPointwise<T, U>(xs: seq<T>, f: T -> nat, ys: seq<U>, g: U -> nat, n: nat)
    requires n <= |xs| && n <= |ys| && forall i :: 0 <= i < n ==> f(xs[i]) <= g(ys[i])
    ensures SumTo(xs, f, n) <= SumTo(ys, g, n)
  {
    if n > 0 {
      SumPointwise(xs, f, ys, g, n - 1);
    }
  }
}
