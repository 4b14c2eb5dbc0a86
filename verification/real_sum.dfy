/** Sums over a finite set of item ids, as `sum([f(m) for m in common])`
    computes them. Ratings are exact reals, so the iteration order of the set
    does not matter. */
module RealSum {
  import opened Text

  /** Some element of a non-empty set (the one the sum peels off first). */
  ghost function Pick(s: set<ItemId>): (x: ItemId)
    requires s != {}
    ensures x in s
  {
    var x :| x in s; x
  }

  ghost function Sum(s: set<ItemId>, f: ItemId -> real): real
    decreases s
  {
    if s == {} then 0.0 else f(Pick(s)) + Sum(s - {Pick(s)}, f)
  }

  /** Any element can be peeled off first: the sum does not depend on order. */
  lemma {:induction false} SumPick(s: set<ItemId>, f: ItemId -> real, y: ItemId)
    requires y in s
    ensures Sum(s, f) == f(y) + Sum(s - {y}, f)
    decreases s
  {
    var x := Pick(s);
    if x != y {
      SumPick(s - {x}, f, y);
      SumPick(s - {y}, f, x);
      assert s - {x} - {y} == s - {y} - {x};
    }
  }

  /** Sums of functions that agree on the set are equal. */
  lemma {:induction false} SumExt(s: set<ItemId>, f: ItemId -> real, g: ItemId -> real)
    requires forall x :: x in s ==> f(x) == g(x)
    ensures Sum(s, f) == Sum(s, g)
    decreases s
  {
    if s != {} { SumExt(s - {Pick(s)}, f, g); }
  }

  /** Sums add up term by term. */
  lemma {:induction false} SumAdd(s: set<ItemId>, f: ItemId -> real, g: ItemId -> real, h: ItemId -> real)
    requires forall x :: x in s ==> h(x) == f(x) + g(x)
    ensures Sum(s, h) == Sum(s, f) + Sum(s, g)
    decreases s
  {
    if s != {} { SumAdd(s - {Pick(s)}, f, g, h); }
  }

  /** A constant factor comes out of a sum. */
  lemma {:induction false} SumScale(s: set<ItemId>, f: ItemId -> real, h: ItemId -> real, a: real)
    requires forall x :: x in s ==> h(x) == a * f(x)
    ensures Sum(s, h) == a * Sum(s, f)
    decreases s
  {
    if s != {} {
      var x := Pick(s);
      var rest := s - {x};
      SumScale(rest, f, h, a);
      assert Sum(s, f) == f(x) + Sum(rest, f);
      Distribute(a, f(x), Sum(rest, f));
    }
  }

  lemma {:induction false} Distribute(a: real, u: real, v: real)
    ensures a * u + a * v == a * (u + v)
  {
  }

  /** A sum of non-negative terms is non-negative. */
  lemma {:induction false} SumNonNegative(s: set<ItemId>, f: ItemId -> real)
    requires forall x :: x in s ==> 0.0 <= f(x)
    ensures 0.0 <= Sum(s, f)
    decreases s
  {
    if s != {} { SumNonNegative(s - {Pick(s)}, f); }
  }

  /** A sum of a constant is the constant times the size of the set. */
  lemma {:induction false} SumConstant(s: set<ItemId>, f: ItemId -> real, c: real)
    requires forall x :: x in s ==> f(x) == c
    ensures Sum(s, f) == (|s| as real) * c
    decreases s
  {
    if s != {} {
      var x := Pick(s);
      var rest := s - {x};
      SumConstant(rest, f, c);
      assert |s| as real == |rest| as real + 1.0;
      Distribute(c, |rest| as real, 1.0);
    }
  }

  function SquareOf(f: ItemId -> real): ItemId -> real
  {
    x => f(x) * f(x)
  }

  /** `p - x * y / n`: a sum of products less the product of two sums over
      the count, the shape of lines 58-60. */
  function Centred(p: real, x: real, y: real, n: real): real
    requires 0.0 < n
  {
    p - x * y / n
  }

  lemma {:induction false} CentredSymmetric(p: real, x: real, y: real, n: real)
    requires 0.0 < n
    ensures Centred(p, x, y, n) == Centred(p, y, x, n)
  {
    assert x * y == y * x;
  }

  /** `sq_sum - pow(sum, 2) / n` over the common items (lines 59-60): the sum
      of squared deviations of `f` from its mean over `s`. */
  ghost function SquaredDeviation(s: set<ItemId>, f: ItemId -> real): real
    requires s != {}
  {
    Centred(Sum(s, SquareOf(f)), Sum(s, f), Sum(s, f), |s| as real)
  }

  /** `x -> (f(x) - mean)^2`. */
  function Deviation(f: ItemId -> real, mean: real): ItemId -> real
  {
    x => (f(x) - mean) * (f(x) - mean)
  }

  /** The quantity under each factor of the square root is never negative,
      so in exact arithmetic `math.sqrt` is never asked for a negative root. */
  lemma {:induction false} SquaredDeviationNonNegative(s: set<ItemId>, f: ItemId -> real)
    requires s != {}
    ensures 0.0 <= SquaredDeviation(s, f)
  {
    var n := |s| as real;
    var total := Sum(s, f);
    var mean := total / n;
    DeviationNonNegative(s, f, mean);
    DeviationExpanded(s, f, mean);
    CenteredAlgebra(Sum(s, SquareOf(f)), total, n, Sum(s, Deviation(f, mean)));
  }

  function Scaled(f: ItemId -> real, k: real): ItemId -> real
  {
    x => k * f(x)
  }

  function Constant(c: real): ItemId -> real
  {
    x => c
  }

  /** `x -> f(x)^2 - 2 mean f(x)`: a squared deviation less its constant part. */
  function Quadratic(f: ItemId -> real, mean: real): ItemId -> real
  {
    x => SquareOf(f)(x) + Scaled(f, -2.0 * mean)(x)
  }

  /** The sum of squared deviations from any `mean`, expanded. */
  lemma {:induction false} DeviationExpanded(s: set<ItemId>, f: ItemId -> real, mean: real)
    ensures Sum(s, Deviation(f, mean)) == Sum(s, SquareOf(f)) + (-2.0 * mean) * Sum(s, f) + (|s| as real) * (mean * mean)
  {
    DeviationSum(s, f, mean);
    QuadraticSum(s, f, mean);
    ScaledSum(s, f, -2.0 * mean);
    LinearCombination(Sum(s, Deviation(f, mean)), Sum(s, Quadratic(f, mean)), Sum(s, Constant(mean * mean)), Sum(s, SquareOf(f)),
                      Sum(s, Scaled(f, -2.0 * mean)), Sum(s, f), -2.0 * mean, |s| as real, mean * mean);
  }

  lemma {:induction false} DeviationSum(s: set<ItemId>, f: ItemId -> real, mean: real)
    ensures Sum(s, Deviation(f, mean)) == Sum(s, Quadratic(f, mean)) + Sum(s, Constant(mean * mean))
    ensures Sum(s, Constant(mean * mean)) == (|s| as real) * (mean * mean)
  {
    DeviationSplits(s, f, mean, Quadratic(f, mean), Constant(mean * mean));
    SumConstant(s, Constant(mean * mean), mean * mean);
  }

  lemma {:induction false} QuadraticSum(s: set<ItemId>, f: ItemId -> real, mean: real)
    ensures Sum(s, Quadratic(f, mean)) == Sum(s, SquareOf(f)) + Sum(s, Scaled(f, -2.0 * mean))
  {
    SumAdd(s, SquareOf(f), Scaled(f, -2.0 * mean), Quadratic(f, mean));
  }

  lemma {:induction false} ScaledSum(s: set<ItemId>, f: ItemId -> real, k: real)
    ensures Sum(s, Scaled(f, k)) == k * Sum(s, f)
  {
    SumScale(s, f, Scaled(f, k), k);
  }

  lemma {:induction false} LinearCombination(total: real, quadratic: real, constant: real, squares: real, linear: real, sum: real, k: real, n: real, c: real)
    requires total == quadratic + constant && quadratic == squares + linear
    requires linear == k * sum && constant == n * c
    ensures total == squares + k * sum + n * c
  {
  }

  lemma {:induction false} DeviationNonNegative(s: set<ItemId>, f: ItemId -> real, mean: real)
    ensures 0.0 <= Sum(s, Deviation(f, mean))
  {
    forall x | x in s ensures 0.0 <= Deviation(f, mean)(x) {
      SquareExpansion(f(x), mean);
    }
    SumNonNegative(s, Deviation(f, mean));
  }

  lemma {:induction false} DeviationSplits(s: set<ItemId>, f: ItemId -> real, mean: real, quadratic: ItemId -> real, constant: ItemId -> real)
    requires forall x :: quadratic(x) == SquareOf(f)(x) + (-2.0 * mean) * f(x)
    requires forall x :: constant(x) == mean * mean
    ensures Sum(s, Deviation(f, mean)) == Sum(s, quadratic) + Sum(s, constant)
  {
    forall x | x in s ensures Deviation(f, mean)(x) == quadratic(x) + constant(x) {
      SquareExpansion(f(x), mean);
    }
    SumAdd(s, quadratic, constant, Deviation(f, mean));
  }

  lemma {:induction false} SquareExpansion(a: real, m: real)
    ensures 0.0 <= (a - m) * (a - m)
    ensures (a - m) * (a - m) == a * a + (-2.0 * m) * a + m * m
  {
    var d := a - m;
    if d < 0.0 { assert d * d == (-d) * (-d); }
  }

  /** Expanding the centred sum: Q - 2 m S + n m^2 = Q - S^2 / n for m = S / n. */
  lemma {:induction false} CenteredAlgebra(q: real, total: real, n: real, centred: real)
    requires 0.0 < n
    requires 0.0 <= centred
    requires centred == q + (-2.0 * (total / n)) * total + n * ((total / n) * (total / n))
    ensures 0.0 <= Centred(q, total, total, n)
  {
    var mean := total / n;
    assert mean * n == total;
    assert n * (mean * mean) == (mean * n) * mean;
    assert mean * total == total * total / n;
  }

  /** Ratings that are constant over `s` have no deviation. */
  lemma {:induction false} ConstantHasNoDeviation(s: set<ItemId>, f: ItemId -> real, c: real)
    requires s != {}
    requires forall x :: x in s ==> f(x) == c
    ensures SquaredDeviation(s, f) == 0.0
  {
    SumConstant(s, f, c);
    SumConstant(s, SquareOf(f), c * c);
    CentredOfConstant(|s| as real, c);
  }

  lemma {:induction false} CentredOfConstant(n: real, c: real)
    requires 0.0 < n
    ensures Centred(n * (c * c), n * c, n * c, n) == 0.0
  {
    assert (n * c) * (n * c) == (n * (c * c)) * n;
  }
}
