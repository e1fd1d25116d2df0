/**
 * The raster primitives of the engine (nn_generator/libraries/basic/matrix_manipulation.py
 * and its copy nn_generator/libraries/matrix_manipulation.py): min-max rescaling to [0, 1],
 * sign-keeping rescaling to [-1, 1], forward differences, Python-sliced cut-outs and
 * block-mean down-scaling. A raster is a sequence of rows of exact reals.
 */
module Matrices {
  import opened Numeric

  type Matrix = seq<seq<real>>

  /** `m` has shape `rows x cols`. */
  predicate IsMatrix<T>(m: seq<seq<T>>, rows: nat, cols: nat)
  {
    |m| == rows && forall i :: 0 <= i < rows ==> |m[i]| == cols
  }

  /** `np.min` and `np.max` need at least one entry; every row of a raster is equally long. */
  predicate NonEmpty(m: Matrix)
  {
    |m| > 0 && forall i :: 0 <= i < |m| ==> |m[i]| > 0
  }

  predicate SameShape(a: Matrix, m: Matrix)
  {
    |a| == |m| && forall i :: 0 <= i < |m| ==> |a[i]| == |m[i]|
  }

  /** Every entry of `m` equals `x`. */
  predicate AllEqual(m: Matrix, x: real)
  {
    forall i, j :: 0 <= i < |m| && 0 <= j < |m[i]| ==> m[i][j] == x
  }

  predicate Constant(m: Matrix)
    requires NonEmpty(m)
  {
    AllEqual(m, m[0][0])
  }

  /** `ndarray.flatten()`: the rows one after another. */
  function Flatten<T>(m: seq<seq<T>>): seq<T>
    decreases |m|
  {
    if m == [] then [] else Flatten(m[..|m| - 1]) + m[|m| - 1]
  }

  lemma {:induction false} FlattenConcat<T>(a: seq<seq<T>>, b: seq<seq<T>>)
    ensures Flatten(a + b) == Flatten(a) + Flatten(b)
    decreases |b|
  {
    if b == [] {
      assert a + b == a;
    } else {
      var c, last := b[..|b| - 1], b[|b| - 1];
      assert (a + b)[..|a + b| - 1] == a + c && (a + b)[|a + b| - 1] == last;
      FlattenConcat(a, c);
      calc {
        Flatten(a + b);
        Flatten(a + c) + last;
        (Flatten(a) + Flatten(c)) + last;
        Flatten(a) + (Flatten(c) + last);
        Flatten(a) + Flatten(b);
      }
    }
  }

  lemma {:induction false} FlattenLength<T>(m: seq<seq<T>>, rows: nat, cols: nat)
    requires IsMatrix(m, rows, cols)
    ensures |Flatten(m)| == rows * cols
    decreases rows
  {
    if rows > 0 {
      FlattenLength(m[..rows - 1], rows - 1, cols);
      assert (rows - 1) * cols + cols == rows * cols;
    }
  }

  /** Flattening a `rows x cols` raster puts `m[i][j]` at `i * cols + j`. */
  lemma FlattenAt<T>(m: seq<seq<T>>, rows: nat, cols: nat, i: nat, j: nat)
    requires IsMatrix(m, rows, cols) && i < rows && j < cols
    ensures |Flatten(m)| == rows * cols
    ensures i * cols + j < rows * cols && Flatten(m)[i * cols + j] == m[i][j]
  {
    FlattenLength(m, rows, cols);
    assert m == m[..i] + [m[i]] + m[i + 1..];
    FlattenConcat(m[..i] + [m[i]], m[i + 1..]);
    FlattenConcat(m[..i], [m[i]]);
    assert Flatten([m[i]]) == m[i] by {
      assert [m[i]][..0] == [];
    }
    FlattenLength(m[..i], i, cols);
  }

  // ---------------------------------------------------------------------------
  // Extremes

  function SeqMin(s: seq<real>): (r: real)
    requires |s| > 0
    ensures forall i :: 0 <= i < |s| ==> r <= s[i]
    ensures exists i :: 0 <= i < |s| && s[i] == r
    decreases |s|
  {
    if |s| == 1 then s[0]
    else
      var p := SeqMin(s[..|s| - 1]);
      assert forall i :: 0 <= i < |s| - 1 ==> s[..|s| - 1][i] == s[i];
      MinReal(p, s[|s| - 1])
  }

  function SeqMax(s: seq<real>): (r: real)
    requires |s| > 0
    ensures forall i :: 0 <= i < |s| ==> s[i] <= r
    ensures exists i :: 0 <= i < |s| && s[i] == r
    decreases |s|
  {
    if |s| == 1 then s[0]
    else
      var p := SeqMax(s[..|s| - 1]);
      assert forall i :: 0 <= i < |s| - 1 ==> s[..|s| - 1][i] == s[i];
      MaxReal(p, s[|s| - 1])
  }

  /** `np.min(matrix)`: a lower bound of all entries that some entry attains. */
  function MatMin(m: Matrix): (r: real)
    requires NonEmpty(m)
    ensures forall i, j :: 0 <= i < |m| && 0 <= j < |m[i]| ==> r <= m[i][j]
    ensures exists i, j :: 0 <= i < |m| && 0 <= j < |m[i]| && m[i][j] == r
  {
    var mins := seq(|m|, i requires 0 <= i < |m| => SeqMin(m[i]));
    var r := SeqMin(mins);
    assert forall i :: 0 <= i < |m| ==> mins[i] == SeqMin(m[i]);
    var i :| 0 <= i < |m| && mins[i] == r;
    var j :| 0 <= j < |m[i]| && m[i][j] == SeqMin(m[i]);
    r
  }

  /** `np.max(matrix)`: an upper bound of all entries that some entry attains. */
  function MatMax(m: Matrix): (r: real)
    requires NonEmpty(m)
    ensures forall i, j :: 0 <= i < |m| && 0 <= j < |m[i]| ==> m[i][j] <= r
    ensures exists i, j :: 0 <= i < |m| && 0 <= j < |m[i]| && m[i][j] == r
  {
    var maxs := seq(|m|, i requires 0 <= i < |m| => SeqMax(m[i]));
    var r := SeqMax(maxs);
    assert forall i :: 0 <= i < |m| ==> maxs[i] == SeqMax(m[i]);
    var i :| 0 <= i < |m| && maxs[i] == r;
    var j :| 0 <= j < |m[i]| && m[i][j] == SeqMax(m[i]);
    r
  }

  /** An attained lower bound is the minimum. */
  lemma MatMinUnique(m: Matrix, x: real, i: nat, j: nat)
    requires NonEmpty(m)
    requires forall k, l :: 0 <= k < |m| && 0 <= l < |m[k]| ==> x <= m[k][l]
    requires i < |m| && j < |m[i]| && m[i][j] == x
    ensures MatMin(m) == x
  {
    var lo := MatMin(m);
    var k, l :| 0 <= k < |m| && 0 <= l < |m[k]| && m[k][l] == lo;
  }

  /** An attained upper bound is the maximum. */
  lemma MatMaxUnique(m: Matrix, x: real, i: nat, j: nat)
    requires NonEmpty(m)
    requires forall k, l :: 0 <= k < |m| && 0 <= l < |m[k]| ==> m[k][l] <= x
    requires i < |m| && j < |m[i]| && m[i][j] == x
    ensures MatMax(m) == x
  {
    var hi := MatMax(m);
    var k, l :| 0 <= k < |m| && 0 <= l < |m[k]| && m[k][l] == hi;
  }

  /** An entry holding the minimum. */
  lemma MinWitness(m: Matrix) returns (i: nat, j: nat)
    requires NonEmpty(m)
    ensures i < |m| && j < |m[i]| && m[i][j] == MatMin(m)
  {
    i, j :| 0 <= i < |m| && 0 <= j < |m[i]| && m[i][j] == MatMin(m);
  }

  /** An entry holding the maximum. */
  lemma MaxWitness(m: Matrix) returns (i: nat, j: nat)
    requires NonEmpty(m)
    ensures i < |m| && j < |m[i]| && m[i][j] == MatMax(m)
  {
    i, j :| 0 <= i < |m| && 0 <= j < |m[i]| && m[i][j] == MatMax(m);
  }

  /** A raster is constant exactly when its minimum equals its maximum. */
  lemma ConstantIffFlat(m: Matrix)
    requires NonEmpty(m)
    ensures MatMin(m) <= MatMax(m)
    ensures Constant(m) <==> MatMin(m) == MatMax(m)
  {
    assert MatMin(m) <= m[0][0] <= MatMax(m);
    if MatMin(m) == MatMax(m) {
      assert m[0][0] == MatMin(m);
    } else {
      var i, j := MaxWitness(m);
      var k, l := MinWitness(m);
      assert m[i][j] != m[k][l];
    }
  }

  // ---------------------------------------------------------------------------
  // rescale

  /** `rescale`: `matrix * 0` when flat, else `(matrix - min) / (max - min)`. */
  function Rescale(m: Matrix): (r: Matrix)
    requires NonEmpty(m)
    ensures SameShape(r, m)
  {
    var lo := MatMin(m);
    var len := MatMax(m) - lo;
    seq(|m|, i requires 0 <= i < |m| => seq(|m[i]|, j requires 0 <= j < |m[i]| => RescaleEntry(m[i][j], lo, len)))
  }

  /** One entry of `rescale`, from the raster's minimum and range. */
  function RescaleEntry(x: real, lo: real, len: real): real
  {
    if len == 0.0 then x * 0.0 else Normalize(x, lo, len)
  }

  lemma RescaleAt(m: Matrix, i: nat, j: nat)
    requires NonEmpty(m) && i < |m| && j < |m[i]|
    ensures Rescale(m)[i][j] == RescaleEntry(m[i][j], MatMin(m), MatMax(m) - MatMin(m))
  {
  }

  /** Where `x` falls between `lo` and `lo + len`, as a fraction of `len`. */
  function Normalize(x: real, lo: real, len: real): real
    requires len != 0.0
  {
    (x - lo) / len
  }

  lemma NormalizeFacts(x: real, lo: real, len: real)
    requires len > 0.0
    ensures lo <= x <= lo + len ==> 0.0 <= Normalize(x, lo, len) <= 1.0
    ensures Normalize(lo, lo, len) == 0.0 && Normalize(lo + len, lo, len) == 1.0
    ensures lo == 0.0 && len == 1.0 ==> Normalize(x, lo, len) == x
  {
    var q := Normalize(x, lo, len);
    assert q * len == x - lo;
    if lo <= x <= lo + len {
      RealMulMonotone(q, 0.0, len);
      RealMulMonotone(1.0, q, len);
    }
  }

  lemma NormalizeMonotone(x: real, y: real, lo: real, len: real)
    requires x <= y && len > 0.0
    ensures Normalize(x, lo, len) <= Normalize(y, lo, len)
  {
    var p, q := Normalize(x, lo, len), Normalize(y, lo, len);
    assert p * len == x - lo && q * len == y - lo;
    assert (q - p) * len == y - x;
  }

  /** A constant raster rescales to all zeros. */
  lemma RescaleOfConstant(m: Matrix)
    requires NonEmpty(m) && Constant(m)
    ensures AllEqual(Rescale(m), 0.0)
  {
    ConstantIffFlat(m);
    forall i, j | 0 <= i < |m| && 0 <= j < |m[i]| ensures Rescale(m)[i][j] == 0.0 {
      RescaleAt(m, i, j);
    }
  }

  /** On a non-constant raster every entry lands in [0, 1], minima on 0 and maxima on 1. */
  lemma RescaleEntryRange(m: Matrix, i: nat, j: nat)
    requires NonEmpty(m) && !Constant(m) && i < |m| && j < |m[i]|
    ensures 0.0 <= Rescale(m)[i][j] <= 1.0
    ensures m[i][j] == MatMin(m) ==> Rescale(m)[i][j] == 0.0
    ensures m[i][j] == MatMax(m) ==> Rescale(m)[i][j] == 1.0
  {
    ConstantIffFlat(m);
    var lo, len := MatMin(m), MatMax(m) - MatMin(m);
    assert lo <= m[i][j] <= lo + len;
    RescaleAt(m, i, j);
    NormalizeFacts(m[i][j], lo, len);
  }

  /** A constant raster rescales to all zeros, and only a constant one does. */
  lemma RescaleZeroIffConstant(m: Matrix)
    requires NonEmpty(m)
    ensures AllEqual(Rescale(m), 0.0) <==> Constant(m)
  {
    if Constant(m) {
      RescaleOfConstant(m);
    } else {
      var i, j := MaxWitness(m);
      RescaleEntryRange(m, i, j);
    }
  }

  /** On a non-constant raster: entries land in [0, 1], minima on 0 and maxima on 1. */
  lemma RescaleRange(m: Matrix)
    requires NonEmpty(m) && !Constant(m)
    ensures forall i, j :: 0 <= i < |m| && 0 <= j < |m[i]| ==> 0.0 <= Rescale(m)[i][j] <= 1.0
    ensures forall i, j :: 0 <= i < |m| && 0 <= j < |m[i]| && m[i][j] == MatMin(m) ==> Rescale(m)[i][j] == 0.0
    ensures forall i, j :: 0 <= i < |m| && 0 <= j < |m[i]| && m[i][j] == MatMax(m) ==> Rescale(m)[i][j] == 1.0
  {
    forall i, j | 0 <= i < |m| && 0 <= j < |m[i]|
      ensures 0.0 <= Rescale(m)[i][j] <= 1.0
      ensures m[i][j] == MatMin(m) ==> Rescale(m)[i][j] == 0.0
      ensures m[i][j] == MatMax(m) ==> Rescale(m)[i][j] == 1.0
    {
      RescaleEntryRange(m, i, j);
    }
  }

  /** Rescaling keeps the order of entries. */
  lemma RescaleMonotone(m: Matrix, i: nat, j: nat, k: nat, l: nat)
    requires NonEmpty(m)
    requires i < |m| && j < |m[i]| && k < |m| && l < |m[k]|
    requires m[i][j] <= m[k][l]
    ensures Rescale(m)[i][j] <= Rescale(m)[k][l]
  {
    ConstantIffFlat(m);
    var lo, len := MatMin(m), MatMax(m) - MatMin(m);
    RescaleAt(m, i, j);
    RescaleAt(m, k, l);
    if len != 0.0 {
      NormalizeMonotone(m[i][j], m[k][l], lo, len);
    }
  }

  /** Two rasters of the same shape with the same entries are equal. */
  lemma SameEntries(a: Matrix, m: Matrix)
    requires SameShape(a, m)
    requires forall i, j :: 0 <= i < |m| && 0 <= j < |m[i]| ==> a[i][j] == m[i][j]
    ensures a == m
  {
    forall i | 0 <= i < |m| ensures a[i] == m[i] {
    }
  }

  /** A raster whose minimum is 0 and maximum is 1 is left as it is. */
  lemma RescaleFixesUnitRange(m: Matrix)
    requires NonEmpty(m)
    requires MatMin(m) == 0.0 && MatMax(m) == 1.0
    ensures Rescale(m) == m
  {
    forall i, j | 0 <= i < |m| && 0 <= j < |m[i]| ensures Rescale(m)[i][j] == m[i][j] {
      RescaleAt(m, i, j);
      NormalizeFacts(m[i][j], 0.0, 1.0);
    }
    SameEntries(Rescale(m), m);
  }

  /** Rescaling twice is rescaling once. */
  lemma RescaleIdempotent(m: Matrix)
    requires NonEmpty(m)
    ensures Rescale(Rescale(m)) == Rescale(m)
  {
    var r := Rescale(m);
    if Constant(m) {
      RescaleOfConstant(m);
      assert Constant(r) by {
        assert r[0][0] == 0.0;
      }
      RescaleOfConstant(r);
      SameEntries(Rescale(r), r);
    } else {
      RescaleRange(m);
      var i, j := MinWitness(m);
      var k, l := MaxWitness(m);
      MatMinUnique(r, 0.0, i, j);
      MatMaxUnique(r, 1.0, k, l);
      RescaleFixesUnitRange(r);
    }
  }

  // ---------------------------------------------------------------------------
  // rescale2

  /** `max(abs(max), abs(min))`, the divisor of `rescale2`. */
  function MaxMagnitude(m: Matrix): real
    requires NonEmpty(m)
  {
    MaxReal(Abs(MatMax(m)), Abs(MatMin(m)))
  }

  /** `MaxMagnitude` bounds every entry's magnitude and some entry attains it. */
  lemma MaxMagnitudeIsMax(m: Matrix)
    requires NonEmpty(m)
    ensures forall i, j :: 0 <= i < |m| && 0 <= j < |m[i]| ==> Abs(m[i][j]) <= MaxMagnitude(m)
    ensures exists i, j :: 0 <= i < |m| && 0 <= j < |m[i]| && Abs(m[i][j]) == MaxMagnitude(m)
  {
    var i, j := MaxWitness(m);
    var k, l := MinWitness(m);
    assert Abs(m[i][j]) == MaxMagnitude(m) || Abs(m[k][l]) == MaxMagnitude(m);
  }

  /** An entry of largest magnitude. */
  lemma MaxMagnitudeWitness(m: Matrix) returns (i: nat, j: nat)
    requires NonEmpty(m)
    ensures i < |m| && j < |m[i]| && Abs(m[i][j]) == MaxMagnitude(m)
  {
    MaxMagnitudeIsMax(m);
    i, j :| 0 <= i < |m| && 0 <= j < |m[i]| && Abs(m[i][j]) == MaxMagnitude(m);
  }

  /** An attained bound on the magnitudes is `MaxMagnitude`. */
  lemma MaxMagnitudeUnique(m: Matrix, x: real, i: nat, j: nat)
    requires NonEmpty(m)
    requires forall k, l :: 0 <= k < |m| && 0 <= l < |m[k]| ==> Abs(m[k][l]) <= x
    requires i < |m| && j < |m[i]| && Abs(m[i][j]) == x
    ensures MaxMagnitude(m) == x
  {
    MaxMagnitudeIsMax(m);
    var k, l := MaxMagnitudeWitness(m);
  }

  /** `rescale2`: the raster itself when all zero, else divided by its largest magnitude. */
  function Rescale2(m: Matrix): (r: Matrix)
    requires NonEmpty(m)
    ensures SameShape(r, m)
  {
    var scalar := MaxMagnitude(m);
    if scalar == 0.0 then m
    else seq(|m|, i requires 0 <= i < |m| => seq(|m[i]|, j requires 0 <= j < |m[i]| => Normalize(m[i][j], 0.0, scalar)))
  }

  lemma Rescale2At(m: Matrix, i: nat, j: nat)
    requires NonEmpty(m) && i < |m| && j < |m[i]|
    ensures MaxMagnitude(m) != 0.0 ==> Rescale2(m)[i][j] == Normalize(m[i][j], 0.0, MaxMagnitude(m))
  {
  }

  /** `rescale2` divides exactly when some entry is non-zero; an all-zero raster comes back unchanged. */
  lemma Rescale2OfZero(m: Matrix)
    requires NonEmpty(m)
    ensures MaxMagnitude(m) == 0.0 <==> AllEqual(m, 0.0)
    ensures AllEqual(m, 0.0) ==> Rescale2(m) == m
  {
    MaxMagnitudeIsMax(m);
  }

  /** After `rescale2` entries lie in [-1, 1], keep their signs, and some entry has magnitude 1. */
  lemma Rescale2Range(m: Matrix)
    requires NonEmpty(m) && !AllEqual(m, 0.0)
    ensures forall i, j :: 0 <= i < |m| && 0 <= j < |m[i]| ==>
      -1.0 <= Rescale2(m)[i][j] <= 1.0 && Sign(Rescale2(m)[i][j]) == Sign(m[i][j])
    ensures exists i, j :: 0 <= i < |m| && 0 <= j < |m[i]| && Abs(Rescale2(m)[i][j]) == 1.0
  {
    Rescale2OfZero(m);
    MaxMagnitudeIsMax(m);
    var s := MaxMagnitude(m);
    forall i, j | 0 <= i < |m| && 0 <= j < |m[i]|
      ensures -1.0 <= Rescale2(m)[i][j] <= 1.0 && Sign(Rescale2(m)[i][j]) == Sign(m[i][j])
    {
      Rescale2At(m, i, j);
      QuotientOfBounded(m[i][j], s);
    }
    var i, j := MaxMagnitudeWitness(m);
    Rescale2At(m, i, j);
    QuotientOfBounded(m[i][j], s);
  }

  lemma QuotientOfBounded(a: real, s: real)
    requires s > 0.0 && Abs(a) <= s
    ensures -1.0 <= Normalize(a, 0.0, s) <= 1.0 && Sign(Normalize(a, 0.0, s)) == Sign(a)
    ensures Abs(a) == s ==> Abs(Normalize(a, 0.0, s)) == 1.0
  {
    var q := Normalize(a, 0.0, s);
    assert q * s == a;
    ScaledSigns(q, s);
  }

  /** How the sign and size of `x` compare with those of `x * y`, for positive `y`. */
  lemma ScaledSigns(x: real, y: real)
    requires y > 0.0
    ensures x > 0.0 ==> x * y > 0.0
    ensures x < 0.0 ==> x * y < 0.0
    ensures x == 0.0 ==> x * y == 0.0
    ensures x > 1.0 ==> x * y > y
    ensures x < -1.0 ==> x * y < -y
    ensures x * y == y ==> x == 1.0
    ensures x * y == -y ==> x == -1.0
  {
    assert (x - 1.0) * y == x * y - y;
    assert (x + 1.0) * y == x * y + y;
  }

  /** Applying `rescale2` twice is applying it once. */
  lemma Rescale2Idempotent(m: Matrix)
    requires NonEmpty(m)
    ensures Rescale2(Rescale2(m)) == Rescale2(m)
  {
    Rescale2OfZero(m);
    if !AllEqual(m, 0.0) {
      Rescale2Unit(m);
      Rescale2FixesUnitMagnitude(Rescale2(m));
    }
  }

  /** After `rescale2` the largest magnitude is 1. */
  lemma Rescale2Unit(m: Matrix)
    requires NonEmpty(m) && !AllEqual(m, 0.0)
    ensures NonEmpty(Rescale2(m)) && MaxMagnitude(Rescale2(m)) == 1.0
  {
    Rescale2OfZero(m);
    var r, s := Rescale2(m), MaxMagnitude(m);
    Rescale2Bounded(m);
    var i, j := MaxMagnitudeWitness(m);
    Rescale2At(m, i, j);
    QuotientOfBounded(m[i][j], s);
    MaxMagnitudeUnique(r, 1.0, i, j);
  }

  /** After `rescale2` no magnitude exceeds 1. */
  lemma Rescale2Bounded(m: Matrix)
    requires NonEmpty(m) && MaxMagnitude(m) != 0.0
    ensures forall k, l :: 0 <= k < |m| && 0 <= l < |m[k]| ==> Abs(Rescale2(m)[k][l]) <= 1.0
  {
    forall k, l | 0 <= k < |m| && 0 <= l < |m[k]| ensures Abs(Rescale2(m)[k][l]) <= 1.0 {
      Rescale2EntryBounded(m, k, l);
    }
  }

  lemma Rescale2EntryBounded(m: Matrix, k: nat, l: nat)
    requires NonEmpty(m) && MaxMagnitude(m) != 0.0 && k < |m| && l < |m[k]|
    ensures Abs(Rescale2(m)[k][l]) <= 1.0
  {
    MaxMagnitudeIsMax(m);
    Rescale2At(m, k, l);
    QuotientOfBounded(m[k][l], MaxMagnitude(m));
  }

  /** A raster whose largest magnitude is 1 is left as it is. */
  lemma Rescale2FixesUnitMagnitude(m: Matrix)
    requires NonEmpty(m) && MaxMagnitude(m) == 1.0
    ensures Rescale2(m) == m
  {
    forall k, l | 0 <= k < |m| && 0 <= l < |m[k]| ensures Rescale2(m)[k][l] == m[k][l] {
      Rescale2At(m, k, l);
      NormalizeFacts(m[k][l], 0.0, 1.0);
    }
    SameEntries(Rescale2(m), m);
  }

  // ---------------------------------------------------------------------------
  // derivatives

  /** The first result of `derivatives`: `m[r+1][c] - m[r][c]`, with a zero last row. */
  function RowDifferences(m: Matrix, cols: nat): (d: Matrix)
    requires IsMatrix(m, |m|, cols)
    ensures IsMatrix(d, |m|, cols)
  {
    seq(|m|, r requires 0 <= r < |m| => seq(cols, c requires 0 <= c < cols =>
      if r < |m| - 1 then m[r + 1][c] - m[r][c] else 0.0))
  }

  /** The second result of `derivatives`: `m[r][c+1] - m[r][c]`, with a zero last column. */
  function ColDifferences(m: Matrix, cols: nat): (d: Matrix)
    requires IsMatrix(m, |m|, cols)
    ensures IsMatrix(d, |m|, cols)
  {
    seq(|m|, r requires 0 <= r < |m| => seq(cols, c requires 0 <= c < cols =>
      if c < cols - 1 then m[r][c + 1] - m[r][c] else 0.0))
  }

  /** Column `c` of the first `k` rows of `d`. */
  function ColumnPrefix(d: Matrix, cols: nat, c: nat, k: nat): seq<real>
    requires IsMatrix(d, |d|, cols) && c < cols && k <= |d|
  {
    seq(k, r requires 0 <= r < k => d[r][c])
  }

  /** Summing the row differences down a column recovers the raster from its first row. */
  lemma {:induction false} RowDifferencesRecover(m: Matrix, cols: nat, r: nat, c: nat)
    requires IsMatrix(m, |m|, cols)
    requires r < |m| && c < cols
    ensures m[r][c] == m[0][c] + Sum(ColumnPrefix(RowDifferences(m, cols), cols, c, r))
  {
    var d := RowDifferences(m, cols);
    if r > 0 {
      RowDifferencesRecover(m, cols, r - 1, c);
      assert ColumnPrefix(d, cols, c, r)[..r - 1] == ColumnPrefix(d, cols, c, r - 1);
    }
  }

  /** Summing the column differences along a row recovers the raster from its first column. */
  lemma {:induction false} ColDifferencesRecover(m: Matrix, cols: nat, r: nat, c: nat)
    requires IsMatrix(m, |m|, cols)
    requires r < |m| && c < cols
    ensures m[r][c] == m[r][0] + Sum(ColDifferences(m, cols)[r][..c])
  {
    var d := ColDifferences(m, cols);
    if c > 0 {
      ColDifferencesRecover(m, cols, r, c - 1);
      assert d[r][..c][..c - 1] == d[r][..c - 1];
    }
  }

  /** A constant raster has no differences in either direction. */
  lemma DifferencesOfConstant(m: Matrix, cols: nat, x: real)
    requires IsMatrix(m, |m|, cols) && AllEqual(m, x)
    ensures AllEqual(RowDifferences(m, cols), 0.0) && AllEqual(ColDifferences(m, cols), 0.0)
  {
  }

  /** The contents of a 2-D array as a raster. */
  function Snapshot(a: array2<real>): (m: Matrix)
    reads a
    ensures IsMatrix(m, a.Length0, a.Length1)
  {
    seq(a.Length0, i requires 0 <= i < a.Length0 reads a =>
      seq(a.Length1, j requires 0 <= j < a.Length1 reads a => a[i, j]))
  }

  /** `derivatives`: two zero arrays filled by nested loops, one per direction. */
  method Derivatives(m: Matrix, cols: nat) returns (rDers: Matrix, cDers: Matrix)
    requires IsMatrix(m, |m|, cols)
    ensures rDers == RowDifferences(m, cols)
    ensures cDers == ColDifferences(m, cols)
  {
    var rd := new real[|m|, cols]((_, _) => 0.0);
    var cd := new real[|m|, cols]((_, _) => 0.0);
    FillRowDifferences(m, cols, rd);
    FillColDifferences(m, cols, cd);
    rDers := Snapshot(rd);
    cDers := Snapshot(cd);
  }

  /** The first loop nest of `derivatives`, over a zero-filled array. */
  method FillRowDifferences(m: Matrix, cols: nat, rd: array2<real>)
    requires IsMatrix(m, |m|, cols) && rd.Length0 == |m| && rd.Length1 == cols
    requires forall i, j :: 0 <= i < |m| && 0 <= j < cols ==> rd[i, j] == 0.0
    modifies rd
    ensures Snapshot(rd) == RowDifferences(m, cols)
  {
    var rows := |m|;
    var r := 0;
    while r < rows - 1
      invariant 0 <= r && (r == 0 || r <= rows - 1)
      invariant forall i, j :: 0 <= i < r && 0 <= j < cols ==> rd[i, j] == m[i + 1][j] - m[i][j]
      invariant forall i, j :: r <= i < rows && 0 <= j < cols ==> rd[i, j] == 0.0
    {
      var c := 0;
      while c < cols
        invariant 0 <= c <= cols
        invariant forall i, j :: 0 <= i < r && 0 <= j < cols ==> rd[i, j] == m[i + 1][j] - m[i][j]
        invariant forall j :: 0 <= j < c ==> rd[r, j] == m[r + 1][j] - m[r][j]
        invariant forall i, j :: 0 <= i < rows && 0 <= j < cols && (r < i || (r == i && c <= j)) ==> rd[i, j] == 0.0
      {
        rd[r, c] := m[r + 1][c] - m[r][c];
        c := c + 1;
      }
      r := r + 1;
    }
    assert forall i :: 0 <= i < rows ==> Snapshot(rd)[i] == RowDifferences(m, cols)[i];
  }

  /** The second loop nest of `derivatives`, over a zero-filled array. */
  method FillColDifferences(m: Matrix, cols: nat, cd: array2<real>)
    requires IsMatrix(m, |m|, cols) && cd.Length0 == |m| && cd.Length1 == cols
    requires forall i, j :: 0 <= i < |m| && 0 <= j < cols ==> cd[i, j] == 0.0
    modifies cd
    ensures Snapshot(cd) == ColDifferences(m, cols)
  {
    var rows := |m|;
    var r := 0;
    while r < rows
      invariant 0 <= r <= rows
      invariant forall i, j :: 0 <= i < r && 0 <= j < cols - 1 ==> cd[i, j] == m[i][j + 1] - m[i][j]
      invariant forall i, j :: 0 <= i < rows && 0 <= j < cols && (r <= i || cols - 1 <= j) ==> cd[i, j] == 0.0
    {
      var c := 0;
      while c < cols - 1
        invariant 0 <= c && (c == 0 || c <= cols - 1)
        invariant forall i, j :: 0 <= i < r && 0 <= j < cols - 1 ==> cd[i, j] == m[i][j + 1] - m[i][j]
        invariant forall j :: 0 <= j < c ==> cd[r, j] == m[r][j + 1] - m[r][j]
        invariant forall i, j :: 0 <= i < rows && 0 <= j < cols && (r < i || (r == i && c <= j) || cols - 1 <= j) ==>
          cd[i, j] == 0.0
      {
        cd[r, c] := m[r][c + 1] - m[r][c];
        c := c + 1;
      }
      r := r + 1;
    }
    assert forall i :: 0 <= i < rows ==> Snapshot(cd)[i] == ColDifferences(m, cols)[i];
  }

  // ---------------------------------------------------------------------------
  // cutout

  /** Python's normalisation of a slice bound: negative counts from the end, then clamp. */
  function SliceBound(x: int, len: nat): (r: nat)
    ensures r <= len
    ensures 0 <= x <= len ==> r == x
  {
    if x < 0 then (if x + len < 0 then 0 else x + len)
    else if x > len then len
    else x
  }

  /** `s[start:stop]` with Python's semantics. */
  function Slice<T>(s: seq<T>, start: int, stop: int): (r: seq<T>)
    ensures 0 <= start <= stop <= |s| ==> r == s[start..stop]
  {
    var lo := SliceBound(start, |s|);
    var hi := SliceBound(stop, |s|);
    if lo <= hi then s[lo..hi] else []
  }

  /** `cutout(matrix, row, col, r, c)`: `matrix[row : row + r, col : col + c]`. */
  function Cutout(m: Matrix, row: int, col: int, r: int, c: int): Matrix
  {
    var band := Slice(m, row, row + r);
    seq(|band|, i requires 0 <= i < |band| => Slice(band[i], col, col + c))
  }

  /** A cut-out of a rectangular raster is rectangular, `len(rows slice) x len(cols slice)`. */
  lemma CutoutShape(m: Matrix, rows: nat, cols: nat, row: int, col: int, r: int, c: int)
    requires IsMatrix(m, rows, cols)
    ensures IsMatrix(Cutout(m, row, col, r, c), |Slice(m, row, row + r)|, |Slice(Fill(0.0, cols), col, col + c)|)
  {
  }

  /** Inside the raster, the cut-out has shape `r x c` and entry `(i, j)` is `m[row+i][col+j]`. */
  lemma CutoutInBounds(m: Matrix, rows: nat, cols: nat, row: int, col: int, r: nat, c: nat)
    requires IsMatrix(m, rows, cols)
    requires 0 <= row && row + r <= rows && 0 <= col && col + c <= cols
    ensures IsMatrix(Cutout(m, row, col, r, c), r, c)
    ensures forall i, j :: 0 <= i < r && 0 <= j < c ==> Cutout(m, row, col, r, c)[i][j] == m[row + i][col + j]
  {
  }

  // ---------------------------------------------------------------------------
  // scale_down

  lemma {:induction false} BlockFits(a: nat, count: nat, red: nat)
    requires a < count
    ensures a * red + red <= count * red
    decreases count
  {
    assert (a + 1) * red == a * red + red;
    if a + 1 < count {
      BlockFits(a, count - 1, red);
      assert count * red == (count - 1) * red + red;
    }
  }

  /** Block `a` of a side of length `x` divisible by `red` ends inside that side. */
  lemma BlockInside(a: nat, x: nat, red: nat)
    requires red >= 1 && x % red == 0 && a < x / red
    ensures 0 <= a * red && a * red + red <= x
  {
    BlockFits(a, x / red, red);
    assert (x / red) * red == x;
  }

  /** Mean of the `red x red` block whose top-left corner is `(top, left)`. */
  function BlockMean(m: Matrix, cols: nat, red: nat, top: nat, left: nat): real
    requires red >= 1 && IsMatrix(m, |m|, cols)
    requires top + red <= |m| && left + red <= cols
  {
    Mean(seq(red, b requires 0 <= b < red => Mean(m[top + b][left .. left + red])))
  }

  /** `scale_down`: `reshape(rows/red, red, cols/red, red).mean(-1).mean(1)`. The reshape
      raises unless both sides are divisible by `red`. */
  function ScaleDown(m: Matrix, cols: nat, red: nat): (r: Matrix)
    requires red >= 1 && IsMatrix(m, |m|, cols)
    requires |m| % red == 0 && cols % red == 0
    ensures IsMatrix(r, |m| / red, cols / red)
  {
    var rows', cols' := |m| / red, cols / red;
    seq(rows', a requires 0 <= a < rows' =>
      seq(cols', c requires 0 <= c < cols' =>
        BlockInside(a, |m|, red);
        BlockInside(c, cols, red);
        BlockMean(m, cols, red, a * red, c * red)))
  }

  /** Scaling down by 1 is the identity. */
  lemma ScaleDownByOne(m: Matrix, cols: nat)
    requires IsMatrix(m, |m|, cols)
    ensures ScaleDown(m, cols, 1) == m
  {
    var r := ScaleDown(m, cols, 1);
    forall a, c | 0 <= a < |m| && 0 <= c < cols
      ensures r[a][c] == m[a][c]
    {
      assert a * 1 == a && c * 1 == c;
      assert m[a + 0][c .. c + 1] == [m[a][c]];
      MeanOfSingleton(m[a][c]);
      assert seq(1, b requires 0 <= b < 1 => Mean(m[a + b][c .. c + 1])) == [m[a][c]];
      MeanOfSingleton(m[a][c]);
    }
    assert forall a :: 0 <= a < |m| ==> r[a] == m[a];
  }

  lemma MeanOfSingleton(x: real)
    ensures Mean([x]) == x
  {
    assert [x][..0] == [];
    assert Sum([x]) == x;
  }

  /** The mean of entries lying in [lo, hi] lies in [lo, hi]. */
  lemma MeanBetween(s: seq<real>, lo: real, hi: real)
    requires |s| > 0
    requires forall i :: 0 <= i < |s| ==> lo <= s[i] <= hi
    ensures lo <= Mean(s) <= hi
  {
    SumBetween(s, lo, hi);
    var k := |s| as real;
    var q := Mean(s);
    assert q * k == Sum(s);
    assert (q - lo) * k >= 0.0;
    assert (hi - q) * k >= 0.0;
  }

  lemma {:induction false} SumBetween(s: seq<real>, lo: real, hi: real)
    requires forall i :: 0 <= i < |s| ==> lo <= s[i] <= hi
    ensures |s| as real * lo <= Sum(s) <= |s| as real * hi
    decreases |s|
  {
    if s != [] {
      SumBetween(s[..|s| - 1], lo, hi);
    }
  }

  /** Every down-scaled cell lies between the minimum and the maximum of the raster. */
  lemma ScaleDownWithinRange(m: Matrix, cols: nat, red: nat)
    requires red >= 1 && IsMatrix(m, |m|, cols) && NonEmpty(m)
    requires |m| % red == 0 && cols % red == 0
    ensures var r := ScaleDown(m, cols, red);
      forall a, c :: 0 <= a < |r| && 0 <= c < |r[a]| ==> MatMin(m) <= r[a][c] <= MatMax(m)
  {
    var r := ScaleDown(m, cols, red);
    var lo, hi := MatMin(m), MatMax(m);
    forall a, c | 0 <= a < |r| && 0 <= c < |r[a]|
      ensures lo <= r[a][c] <= hi
    {
      BlockInside(a, |m|, red);
      BlockInside(c, cols, red);
      var top, left := a * red, c * red;
      assert r[a][c] == BlockMean(m, cols, red, top, left);
      BlockBetween(m, cols, red, top, left, lo, hi);
    }
  }

  lemma BlockBetween(m: Matrix, cols: nat, red: nat, top: nat, left: nat, lo: real, hi: real)
    requires red >= 1 && IsMatrix(m, |m|, cols)
    requires top + red <= |m| && left + red <= cols
    requires forall i, j :: 0 <= i < |m| && 0 <= j < |m[i]| ==> lo <= m[i][j] <= hi
    ensures lo <= BlockMean(m, cols, red, top, left) <= hi
  {
    var means := seq(red, b requires 0 <= b < red => Mean(m[top + b][left .. left + red]));
    forall b | 0 <= b < red ensures lo <= means[b] <= hi {
      MeanBetween(m[top + b][left .. left + red], lo, hi);
    }
    MeanBetween(means, lo, hi);
  }

  /** A constant raster stays the same constant when scaled down. */
  lemma ScaleDownConstant(m: Matrix, cols: nat, red: nat, x: real)
    requires red >= 1 && IsMatrix(m, |m|, cols) && NonEmpty(m)
    requires |m| % red == 0 && cols % red == 0
    requires AllEqual(m, x)
    ensures AllEqual(ScaleDown(m, cols, red), x)
  {
    MatMinUnique(m, x, 0, 0);
    MatMaxUnique(m, x, 0, 0);
    ScaleDownWithinRange(m, cols, red);
  }
}
