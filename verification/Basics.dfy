/** Shared vocabulary: optional values, extrema, and sums over sequences. */
module Basics {

  datatype Option<+T> = None | Some(value: T)

  function Max(x: real, y: real): real {
    if x < y then y else x
  }

  function Min(x: real, y: real): real {
    if y < x then y else x
  }

  function MaxInt(x: int, y: int): int {
    if x < y then y else x
  }

  function MinInt(x: int, y: int): int {
    if y < x then y else x
  }

  function Sum<T>(xs: seq<T>, f: T -> real): real {
    if xs == [] then 0.0 else Sum(xs[..|xs| - 1], f) + f(xs[|xs| - 1])
  }

  function Count<T>(xs: seq<T>, p: T -> bool): nat {
    if xs == [] then 0 else Count(xs[..|xs| - 1], p) + if p(xs[|xs| - 1]) then 1 else 0
  }

  function Without<T>(xs: seq<T>, i: nat): seq<T>
    requires i < |xs|
  {
    xs[..i] + xs[i + 1..]
  }

  lemma {:induction false} SumConcat<T>(xs: seq<T>, ys: seq<T>, f: T -> real)
    ensures Sum(xs + ys, f) == Sum(xs, f) + Sum(ys, f)
  {
    if ys == [] {
      assert xs + ys == xs;
    } else {
      var n := |ys| - 1;
      assert (xs + ys)[..|xs + ys| - 1] == xs + ys[..n];
      SumConcat(xs, ys[..n], f);
    }
  }

  lemma {:induction false} CountConcat<T>(xs: seq<T>, ys: seq<T>, p: T -> bool)
    ensures Count(xs + ys, p) == Count(xs, p) + Count(ys, p)
  {
    if ys == [] {
      assert xs + ys == xs;
    } else {
      var n := |ys| - 1;
      assert (xs + ys)[..|xs + ys| - 1] == xs + ys[..n];
      CountConcat(xs, ys[..n], p);
    }
  }

  lemma SumOne<T>(x: T, f: T -> real)
    ensures Sum([x], f) == f(x)
  {
    assert [x][..0] == [];
  }

  lemma CountOne<T>(x: T, p: T -> bool)
    ensures Count([x], p) == if p(x) then 1 else 0
  {
    assert [x][..0] == [];
  }

  /** Splicing one element out, or replacing it, moves a sum by exactly that element. */
  lemma SumSplice<T>(xs: seq<T>, i: nat, y: T, f: T -> real)
    requires i < |xs|
    ensures Sum(Without(xs, i), f) == Sum(xs, f) - f(xs[i])
    ensures Sum(xs[i := y], f) == Sum(xs, f) - f(xs[i]) + f(y)
  {
    var a, b := xs[..i], xs[i + 1..];
    assert xs == a + ([xs[i]] + b);
    assert xs[i := y] == a + ([y] + b);
    SumConcat(a, [xs[i]] + b, f); SumConcat([xs[i]], b, f); SumOne(xs[i], f);
    SumConcat(a, [y] + b, f); SumConcat([y], b, f); SumOne(y, f);
    SumConcat(a, b, f);
  }

  lemma CountSplice<T>(xs: seq<T>, i: nat, y: T, p: T -> bool)
    requires i < |xs|
    ensures Count(Without(xs, i), p) == Count(xs, p) - if p(xs[i]) then 1 else 0
    ensures Count(xs[i := y], p) == Count(xs, p) - (if p(xs[i]) then 1 else 0) + if p(y) then 1 else 0
  {
    var a, b := xs[..i], xs[i + 1..];
    assert xs == a + ([xs[i]] + b);
    assert xs[i := y] == a + ([y] + b);
    CountConcat(a, [xs[i]] + b, p); CountConcat([xs[i]], b, p); CountOne(xs[i], p);
    CountConcat(a, [y] + b, p); CountConcat([y], b, p); CountOne(y, p);
    CountConcat(a, b, p);
  }

  lemma {:induction false} SumBound<T>(xs: seq<T>, f: T -> real, bound: real)
    requires forall x :: x in xs ==> f(x) <= bound
    ensures Sum(xs, f) <= bound * |xs| as real
  {
    if xs != [] {
      var n := |xs| - 1;
      assert forall x :: x in xs[..n] ==> x in xs;
      SumBound(xs[..n], f, bound);
      assert xs[n] in xs;
      assert bound * |xs| as real == bound * n as real + bound;
    }
  }

  /** Two predicates that split every element split the count. */
  lemma {:induction false} CountSplit<T>(xs: seq<T>, p: T -> bool, q: T -> bool)
    requires forall x :: x in xs ==> (p(x) <==> !q(x))
    ensures Count(xs, p) + Count(xs, q) == |xs|
  {
    if xs != [] {
      var n := |xs| - 1;
      assert forall x :: x in xs[..n] ==> x in xs;
      CountSplit(xs[..n], p, q);
      assert xs[n] in xs;
    }
  }

  lemma ProductPositive(x: real, y: real)
    requires x > 0.0 && y > 0.0
    ensures x * y > 0.0
  {
  }

  lemma ProductMonotone(x: real, y: real, z: real)
    requires x <= y && z >= 0.0
    ensures x * z <= y * z
  {
  }

  /** A positive factor keeps order, and nothing but order. */
  lemma FactorKeepsOrder(k: real, x: real, y: real)
    requires k > 0.0
    ensures k * x < k * y <==> x < y
    ensures k * x == k * y <==> x == y
  {
    if x < y {
      ProductPositive(k, y - x);
      Factored(k, y, x);
    } else if y < x {
      ProductPositive(k, x - y);
      Factored(k, x, y);
    }
  }

  lemma Factored(k: real, x: real, y: real)
    ensures k * (x - y) == k * x - k * y
  {
  }

  lemma QuotientTimes(x: real, n: real)
    requires n != 0.0
    ensures n * (x / n) == x
  {
  }

  lemma IntMonotone(k: int, x: int, y: int)
    requires k >= 0 && x <= y
    ensures k * x <= k * y
  {
  }

  /** Quotient and remainder are unique. */
  lemma DivUnique(x: int, n: int, q: int, r: int)
    requires n > 0 && x == n * q + r && 0 <= r < n
    ensures x / n == q && x % n == r
  {
    var d := x / n - q;
    assert x == n * (x / n) + x % n;
    assert n * d == r - x % n;
    assert d >= 1 ==> n * d >= n;
    assert d <= -1 ==> n * d <= -n;
  }

  /** Shifting by whole multiples moves the quotient and leaves the remainder. */
  lemma DivShift(x: int, n: int, k: int)
    requires n > 0
    ensures (x + k * n) % n == x % n && (x + k * n) / n == x / n + k
  {
    assert x + k * n == n * (x / n + k) + x % n;
    DivUnique(x + k * n, n, x / n + k, x % n);
  }
}
