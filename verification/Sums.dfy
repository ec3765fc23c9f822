/** Finite sums over sequences and over initial segments of the naturals. */
module Sums {
  /** The sum grows at the back, the way a loop accumulates it. */
  function Sum<T>(xs: seq<T>, f: T -> nat): nat {
    if xs == [] then 0 else Sum(xs[..|xs| - 1], f) + f(xs[|xs| - 1])
  }

  lemma {:induction false} SumPrefix<T>(xs: seq<T>, f: T -> nat, k: nat)
    requires k < |xs|
    ensures Sum(xs[..k + 1], f) == Sum(xs[..k], f) + f(xs[k])
  {
    assert xs[..k + 1][..k] == xs[..k];
  }

  lemma {:induction false} SumConcat<T>(xs: seq<T>, ys: seq<T>, f: T -> nat)
    ensures Sum(xs + ys, f) == Sum(xs, f) + Sum(ys, f)
  {
    if ys == [] {
      assert xs + ys == xs;
    } else {
      var last := |ys| - 1;
      SumConcat(xs, ys[..last], f);
      assert (xs + ys)[..|xs + ys| - 1] == xs + ys[..last];
    }
  }

  lemma {:induction false} SumMonotone<T>(xs: seq<T>, f: T -> nat, g: T -> nat)
    requires forall x | x in xs :: f(x) <= g(x)
    ensures Sum(xs, f) <= Sum(xs, g)
  {
    if xs != [] {
      SumMonotone(xs[..|xs| - 1], f, g);
    }
  }

  lemma {:induction false} SumAdd<T>(xs: seq<T>, f: T -> nat, g: T -> nat, h: T -> nat)
    requires forall x | x in xs :: h(x) == f(x) + g(x)
    ensures Sum(xs, h) == Sum(xs, f) + Sum(xs, g)
  {
    if xs != [] {
      SumAdd(xs[..|xs| - 1], f, g, h);
    }
  }

  /** Replacing one element shifts the sum by the difference of its two terms. */
  lemma {:induction false} SumUpdate<T>(xs: seq<T>, k: nat, x: T, f: T -> nat)
    requires k < |xs|
    ensures Sum(xs[k := x], f) + f(xs[k]) == Sum(xs, f) + f(x)
  {
    var last := |xs| - 1;
    if k < last {
      SumUpdate(xs[..last], k, x, f);
      assert xs[k := x][..last] == xs[..last][k := x];
    } else {
      assert xs[k := x][..last] == xs[..last];
    }
  }

  function SumTo(n: nat, f: nat -> nat): nat {
    if n == 0 then 0 else SumTo(n - 1, f) + f(n - 1)
  }

  lemma {:induction false} SumToEqual(n: nat, f: nat -> nat, g: nat -> nat)
    requires forall i: nat | i < n :: f(i) == g(i)
    ensures SumTo(n, f) == SumTo(n, g)
  {
    if n > 0 {
      SumToEqual(n - 1, f, g);
    }
  }

  lemma {:induction false} SumToAdd(n: nat, f: nat -> nat, g: nat -> nat, h: nat -> nat)
    requires forall i: nat | i < n :: h(i) == f(i) + g(i)
    ensures SumTo(n, h) == SumTo(n, f) + SumTo(n, g)
  {
    if n > 0 {
      SumToAdd(n - 1, f, g, h);
    }
  }

  /** Changing one term. */
  lemma {:induction false} SumToUpdate(n: nat, f: nat -> nat, g: nat -> nat, k: nat)
    requires k < n && forall i: nat | i < n && i != k :: f(i) == g(i)
    ensures SumTo(n, g) + f(k) == SumTo(n, f) + g(k)
  {
    if k == n - 1 {
      SumToEqual(n - 1, f, g);
    } else {
      SumToUpdate(n - 1, f, g, k);
    }
  }
}
