/** Small things every module may need. */
module Basics {

  datatype Option<+T> = None | Some(value: T)

  lemma ConcatAssoc<T>(a: seq<T>, b: seq<T>, c: seq<T>)
    ensures a + (b + c) == (a + b) + c
  {
  }

  /** Total weight of the first n elements. */
  function SumTo<T>(xs: seq<T>, n: nat, weight: T -> nat): (m: nat)
    requires n <= |xs|
  {
    if n == 0 then 0 else SumTo(xs, n - 1, weight) + weight(xs[n - 1])
  }

  function Sum<T>(xs: seq<T>, weight: T -> nat): (m: nat) {
    SumTo(xs, |xs|, weight)
  }

  lemma {:induction false} SumToPrefix<T>(xs: seq<T>, x: T, n: nat, weight: T -> nat)
    requires n <= |xs|
    ensures SumTo(xs + [x], n, weight) == SumTo(xs, n, weight)
  {
    if n != 0 {
      SumToPrefix(xs, x, n - 1, weight);
    }
  }

  lemma SumAppend<T>(xs: seq<T>, x: T, weight: T -> nat)
    ensures Sum(xs + [x], weight) == Sum(xs, weight) + weight(x)
  {
    SumToPrefix(xs, x, |xs|, weight);
  }

  lemma {:induction false} SumToUpdate<T>(xs: seq<T>, n: nat, k: nat, x: T, weight: T -> nat)
    requires n <= |xs| && k < |xs|
    ensures SumTo(xs[k := x], n, weight) + (if k < n then weight(xs[k]) else 0)
         == SumTo(xs, n, weight) + (if k < n then weight(x) else 0)
  {
    if n != 0 {
      SumToUpdate(xs, n - 1, k, x, weight);
    }
  }

  lemma {:induction false} SumToAdds<T>(xs: seq<T>, n: nat, u: T -> nat, v: T -> nat, w: T -> nat)
    requires n <= |xs| && forall i :: 0 <= i < |xs| ==> u(xs[i]) + v(xs[i]) == w(xs[i])
    ensures SumTo(xs, n, u) + SumTo(xs, n, v) == SumTo(xs, n, w)
  {
    if n != 0 {
      SumToAdds(xs, n - 1, u, v, w);
    }
  }
}
