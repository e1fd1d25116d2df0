/** Optional values, used for the operations of the source that raise. */
module Wrappers {
  datatype Option<T> = None | Some(value: T)
}

/**
 * Exact-real stand-ins for the numeric primitives the raster engine and the
 * converter rely on: sums and means of vectors (`np.sum`, `np.average`),
 * `np.sign`, truncation toward zero (Python `int()`, C# `(int)` casts),
 * round-half-to-even (Python `round`, C# `Math.Round`), and the base-2
 * logarithm/exponential pair used by the logarithmic codec.
 */
module Numeric {

  function Abs(x: real): real
  {
    if x < 0.0 then -x else x
  }

  function MinInt(a: int, b: int): int
  {
    if a < b then a else b
  }

  function MinReal(a: real, b: real): real
  {
    if a < b then a else b
  }

  function MaxReal(a: real, b: real): real
  {
    if a < b then b else a
  }

  /** Multiplying by a positive factor keeps the sign. */
  lemma RealMulSign(x: real, l: real)
    requires l > 0.0
    ensures x < 0.0 ==> x * l < 0.0
    ensures x > 0.0 ==> x * l > 0.0
  {
  }

  /** Multiplying by a positive factor keeps the order. */
  lemma RealMulMonotone(a: real, b: real, l: real)
    requires l > 0.0
    ensures a < b ==> a * l < b * l
  {
    RealMulSign(b - a, l);
    assert (b - a) * l == b * l - a * l;
  }

  /** `np.sign`: -1, 0 or 1. */
  function Sign(x: real): real
  {
    if x < 0.0 then -1.0 else if x > 0.0 then 1.0 else 0.0
  }

  /** Python `int(x)` on a float and the C# `(int)` cast: truncation toward zero. */
  function Trunc(x: real): (t: int)
    ensures 0.0 <= x ==> t as real <= x < t as real + 1.0
    ensures x < 0.0 ==> t as real - 1.0 < x <= t as real
  {
    if x >= 0.0 then x.Floor else -((-x).Floor)
  }

  /** Python 3 `round` and C# `Math.Round`: nearest integer, ties to the even one. */
  function RoundHalfEven(x: real): (r: int)
    ensures Abs(r as real - x) <= 0.5
    ensures Abs(r as real - x) == 0.5 ==> r % 2 == 0
  {
    var f := x.Floor;
    var d := x - f as real;
    if d < 0.5 then f
    else if d > 0.5 then f + 1
    else if f % 2 == 0 then f
    else f + 1
  }

  /** A constant vector of length `k`. */
  function Fill(c: real, k: nat): (s: seq<real>)
    ensures |s| == k
  {
    seq(k, _ => c)
  }

  /** `np.sum`, folded from the left. */
  function Sum(s: seq<real>): real
    decreases |s|
  {
    if s == [] then 0.0 else Sum(s[..|s| - 1]) + s[|s| - 1]
  }

  /** Elementwise `abs`. */
  function AbsAll(s: seq<real>): (r: seq<real>)
    ensures |r| == |s|
  {
    seq(|s|, i requires 0 <= i < |s| => Abs(s[i]))
  }

  /** Elementwise negation (`encoded *= -1`). */
  function Negate(s: seq<real>): (r: seq<real>)
    ensures |r| == |s|
  {
    seq(|s|, i requires 0 <= i < |s| => -s[i])
  }

  /** Elementwise subtraction of a scalar (`arr -= absolute`). */
  function Shift(s: seq<real>, d: real): (r: seq<real>)
    ensures |r| == |s|
  {
    seq(|s|, i requires 0 <= i < |s| => s[i] - d)
  }

  /** `np.average` of a non-empty vector. */
  function Mean(s: seq<real>): real
    requires |s| > 0
  {
    Sum(s) / |s| as real
  }

  lemma {:induction false} SumConcat(a: seq<real>, b: seq<real>)
    ensures Sum(a + b) == Sum(a) + Sum(b)
    decreases |b|
  {
    if b == [] {
      assert a + b == a;
    } else {
      assert (a + b)[..|a + b| - 1] == a + b[..|b| - 1];
      SumConcat(a, b[..|b| - 1]);
    }
  }

  lemma {:induction false} SumFill(c: real, k: nat)
    ensures Sum(Fill(c, k)) == k as real * c
  {
    if k > 0 {
      assert Fill(c, k)[..k - 1] == Fill(c, k - 1);
      SumFill(c, k - 1);
    }
  }

  lemma {:induction false} SumNegate(s: seq<real>)
    ensures Sum(Negate(s)) == -Sum(s)
    decreases |s|
  {
    if s != [] {
      assert Negate(s)[..|s| - 1] == Negate(s[..|s| - 1]);
      SumNegate(s[..|s| - 1]);
    }
  }

  lemma {:induction false} SumShift(s: seq<real>, d: real)
    ensures Sum(Shift(s, d)) == Sum(s) - |s| as real * d
    decreases |s|
  {
    if s != [] {
      assert Shift(s, d)[..|s| - 1] == Shift(s[..|s| - 1], d);
      SumShift(s[..|s| - 1], d);
    }
  }

  lemma {:induction false} SumNonNegative(s: seq<real>)
    requires forall i :: 0 <= i < |s| ==> s[i] >= 0.0
    ensures Sum(s) >= 0.0
    decreases |s|
  {
    if s != [] {
      SumNonNegative(s[..|s| - 1]);
    }
  }

  lemma AbsAllNegate(s: seq<real>)
    ensures AbsAll(Negate(s)) == AbsAll(s)
  {
  }

  lemma AbsAllNonNegative(s: seq<real>)
    requires forall i :: 0 <= i < |s| ==> s[i] >= 0.0
    ensures AbsAll(s) == s
  {
  }

  /** Shifting every entry by `d` shifts the mean by `d`. */
  lemma MeanShift(s: seq<real>, d: real)
    requires |s| > 0
    ensures Mean(Shift(s, d)) == Mean(s) - d
  {
    var n := |s| as real;
    SumShift(s, d);
    var q := Sum(s) / n;
    assert q * n == Sum(s);
    assert (q - d) * n == Sum(s) - n * d;
    RealDivUnique(Sum(s) - n * d, n, q - d);
  }

  lemma RealDivUnique(x: real, n: real, y: real)
    requires n != 0.0 && y * n == x
    ensures x / n == y
  {
  }

  /** Subtracting the mean leaves a vector whose mean is zero. */
  lemma MeanOfShiftByMean(s: seq<real>)
    requires |s| > 0
    ensures Mean(Shift(s, Mean(s))) == 0.0
  {
    MeanShift(s, Mean(s));
  }

  /** The mean of a constant vector is that constant. */
  lemma MeanFill(c: real, k: nat)
    requires k > 0
    ensures Mean(Fill(c, k)) == c
  {
    SumFill(c, k);
  }

  /**
   * The base-2 logarithm and exponential, which exact reals cannot define:
   * a model is handed a pair of functions and reasons only from `Lawful`.
   */
  datatype Base2 = Base2(log2: real -> real, pow2: real -> real)

  /** The laws of `math.log2` and `2 ** x` that the codec relies on. */
  ghost predicate Lawful(b: Base2)
  {
    && (forall y :: b.pow2(y) > 0.0)
    && (forall v :: v > 0.0 ==> b.pow2(b.log2(v)) == v)
    && (forall y :: b.log2(b.pow2(y)) == y)
    && b.pow2(0.0) == 1.0
    && (forall y, z :: y < z ==> b.pow2(y) < b.pow2(z))
  }

  /** `log2` is strictly increasing on the positive reals. */
  lemma Log2Monotone(b: Base2, v: real, w: real)
    requires Lawful(b)
    requires 0.0 < v < w
    ensures b.log2(v) < b.log2(w)
  {
    // Mentioning both round trips lets the monotonicity law apply to them.
    var pv, pw := b.pow2(b.log2(v)), b.pow2(b.log2(w));
    assert pv == v && pw == w;
  }

  lemma Log2OfOne(b: Base2)
    requires Lawful(b)
    ensures b.log2(1.0) == 0.0
  {
    assert b.log2(b.pow2(0.0)) == 0.0;
  }
}
