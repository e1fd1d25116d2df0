/**
 * The row-major scan shared by `generate` and `generate_other`
 * (nn_generator/libraries/generate.py): the cells `[padding, rows+padding) x
 * [padding, cols+padding)` are overwritten one after the other, each with a value computed
 * from its position and the 22 cells that precede it in its 5 x 5 window. What the value
 * is does not matter here, so the rule is a parameter; the properties below hold for any.
 */
module Scanning {
  import opened Wrappers
  import opened Matrices
  import opened Windows

  /** The scanned region: `rows x cols` cells, offset by `padding` in both directions. */
  datatype Region = Region(rows: nat, cols: nat, padding: nat)

  /** The value a step writes, from the target position and its 22 recurrent cells; `None` where it raises. */
  type CellRule = (int, int, seq<real>) -> Option<real>

  const RecurrentLength: nat := 22

  /** A `height x width` raster leaves room for every reduction-1 window of the scan. */
  predicate Fits(s: Region, height: nat, width: nat)
  {
    s.rows == 0 || s.cols == 0 ||
    (4 <= s.padding && s.rows + s.padding + 1 <= height && s.cols + s.padding + 3 <= width)
  }

  predicate InRegion(s: Region, i: int, j: int)
  {
    s.padding <= i < s.rows + s.padding && s.padding <= j < s.cols + s.padding
  }

  /** Position of a region cell in the row-major scan. */
  function RegionIndex(s: Region, i: int, j: int): int
  {
    (i - s.padding) * s.cols + (j - s.padding)
  }

  /** The cell visited at step `k`. */
  function CellRowAt(s: Region, k: nat): int
    requires s.cols > 0
  {
    s.padding + k / s.cols
  }

  function CellColAt(s: Region, k: nat): int
    requires s.cols > 0
  {
    s.padding + k % s.cols
  }

  lemma ProductPositive(a: nat, b: nat)
    ensures a * b > 0 ==> a > 0 && b > 0
  {
    if a == 0 || b == 0 {
      assert a * b == 0;
    }
  }

  /** Step `k` visits a region cell, and that cell's index is `k`. */
  lemma CellInRegion(s: Region, k: nat)
    requires k < s.rows * s.cols
    ensures s.cols > 0
    ensures InRegion(s, CellRowAt(s, k), CellColAt(s, k))
    ensures RegionIndex(s, CellRowAt(s, k), CellColAt(s, k)) == k
  {
    ProductPositive(s.rows, s.cols);
    DivBelow(k, s.rows, s.cols);
  }

  /** Every region cell is visited, at step `RegionIndex`. */
  lemma CellOfRegionIndex(s: Region, i: int, j: int)
    requires InRegion(s, i, j)
    ensures 0 <= RegionIndex(s, i, j) < s.rows * s.cols
    ensures CellRowAt(s, RegionIndex(s, i, j)) == i && CellColAt(s, RegionIndex(s, i, j)) == j
  {
    IndexOfCell(i - s.padding, j - s.padding, s.rows, s.cols);
  }

  /** Row-major order on region cells is the order of their indices. */
  lemma RegionIndexMonotone(s: Region, i: int, j: int, r: int, c: int)
    requires InRegion(s, i, j) && InRegion(s, r, c)
    ensures Before(i, j, r, c) ==> RegionIndex(s, i, j) < RegionIndex(s, r, c)
  {
    if i < r {
      MulMonotone(i - s.padding + 1, r - s.padding, s.cols);
      assert (i - s.padding + 1) * s.cols == (i - s.padding) * s.cols + s.cols;
    }
  }

  /** The scan visits the region in row-major order, each cell once. */
  lemma ScanOrder(s: Region, k1: nat, k2: nat)
    requires k1 < k2 < s.rows * s.cols
    ensures s.cols > 0
    ensures Before(CellRowAt(s, k1), CellColAt(s, k1), CellRowAt(s, k2), CellColAt(s, k2))
  {
    CellInRegion(s, k1);
    CellInRegion(s, k2);
    RegionIndexMonotone(s, CellRowAt(s, k2), CellColAt(s, k2), CellRowAt(s, k1), CellColAt(s, k1));
  }

  /** Every reduction-1 window of the scan lies in a fitting raster. */
  lemma ScanWindowInside(s: Region, height: nat, width: nat, k: nat)
    requires Fits(s, height, width) && k < s.rows * s.cols
    ensures s.cols > 0
    ensures WindowInside(height, width, CellRowAt(s, k), CellColAt(s, k), 5, 1)
  {
    CellInRegion(s, k);
    ProductPositive(s.rows, s.cols);
  }

  /** The recurrent cells of `(r, c)`: the four rows above it and the two cells to its left. */
  function Gather(g: Matrix, width: nat, r: int, c: int): (rec: seq<real>)
    requires IsMatrix(g, |g|, width) && WindowInside(|g|, width, r, c, 5, 1)
    ensures |rec| == RecurrentLength
  {
    seq(RecurrentLength, t requires 0 <= t < RecurrentLength => g[RecurrentRow(r, t)][RecurrentCol(c, t)])
  }

  /** `g` with cell `(r, c)` set to `v`. */
  function Put(g: Matrix, width: nat, r: int, c: int, v: real): (h: Matrix)
    requires IsMatrix(g, |g|, width) && 0 <= r < |g| && 0 <= c < width
    ensures IsMatrix(h, |g|, width)
    ensures h[r][c] == v
    ensures forall i, j :: 0 <= i < |g| && 0 <= j < width && (i != r || j != c) ==> h[i][j] == g[i][j]
  {
    g[r := g[r][c := v]]
  }

  /** Step `k` of the scan applied to raster `g`. */
  function Step(s: Region, rule: CellRule, g: Matrix, width: nat, k: nat): (h: Option<Matrix>)
    requires IsMatrix(g, |g|, width) && Fits(s, |g|, width) && k < s.rows * s.cols
    ensures h.Some? ==> IsMatrix(h.value, |g|, width)
  {
    ScanWindowInside(s, |g|, width, k);
    var r, c := CellRowAt(s, k), CellColAt(s, k);
    match rule(r, c, Gather(g, width, r, c))
    case None => None
    case Some(v) => Some(Put(g, width, r, c, v))
  }

  /** The raster after the first `k` steps of the scan, or `None` once a step raised. */
  function Run(s: Region, rule: CellRule, g0: Matrix, width: nat, k: nat): (g: Option<Matrix>)
    requires IsMatrix(g0, |g0|, width) && Fits(s, |g0|, width) && k <= s.rows * s.cols
    ensures g.Some? ==> IsMatrix(g.value, |g0|, width)
    decreases k
  {
    if k == 0 then Some(g0)
    else
      match Run(s, rule, g0, width, k - 1)
      case None => None
      case Some(g) => Step(s, rule, g, width, k - 1)
  }

  /** One more step of the scan, at the region cell whose index is `k`. */
  lemma RunNext(s: Region, rule: CellRule, g0: Matrix, width: nat, k: nat, r: int, c: int)
    requires IsMatrix(g0, |g0|, width) && Fits(s, |g0|, width) && k < s.rows * s.cols
    requires Run(s, rule, g0, width, k).Some?
    requires InRegion(s, r, c) && RegionIndex(s, r, c) == k
    ensures WindowInside(|g0|, width, r, c, 5, 1)
    ensures var g := Run(s, rule, g0, width, k).value;
      var v := rule(r, c, Gather(g, width, r, c));
      Run(s, rule, g0, width, k + 1) == if v.Some? then Some(Put(g, width, r, c, v.value)) else None
  {
    CellOfRegionIndex(s, r, c);
    ScanWindowInside(s, |g0|, width, k);
  }

  /** The step at which the scan reaches row `r`; past the last row it is the whole scan. */
  function RowStart(s: Region, r: int): (k: nat)
    requires s.padding <= r <= s.rows + s.padding
    ensures k <= s.rows * s.cols
    ensures r == s.rows + s.padding ==> k == s.rows * s.cols
  {
    MulMonotone(r - s.padding, s.rows, s.cols);
    (r - s.padding) * s.cols
  }

  /** The steps of one row end where the next row begins. */
  lemma RowEnd(s: Region, r: int)
    requires s.padding <= r < s.rows + s.padding
    ensures RowStart(s, r) + s.cols == RowStart(s, r + 1)
    ensures forall c :: s.padding <= c <= s.cols + s.padding ==> RegionIndex(s, r, c) == RowStart(s, r) + (c - s.padding)
  {
  }

  /** The scan stopped at step `k`: the first `k` steps succeeded and step `k` raised. */
  ghost predicate StoppedAt(s: Region, rule: CellRule, g0: Matrix, width: nat, k: nat, g: Matrix)
    requires IsMatrix(g0, |g0|, width) && Fits(s, |g0|, width)
  {
    k < s.rows * s.cols && Run(s, rule, g0, width, k) == Some(g) && Run(s, rule, g0, width, k + 1).None?
  }

  /** Once a step raised, the scan stays failed. */
  lemma {:induction false} RunFailureStays(s: Region, rule: CellRule, g0: Matrix, width: nat, k: nat, n: nat)
    requires IsMatrix(g0, |g0|, width) && Fits(s, |g0|, width) && k <= n <= s.rows * s.cols
    requires Run(s, rule, g0, width, k).None?
    ensures Run(s, rule, g0, width, n).None?
    decreases n - k
  {
    if k < n {
      RunFailureStays(s, rule, g0, width, k + 1, n);
    }
  }

  /** Cells outside the scanned region are never written. */
  lemma {:induction false} RunFrame(s: Region, rule: CellRule, g0: Matrix, width: nat, k: nat)
    requires IsMatrix(g0, |g0|, width) && Fits(s, |g0|, width) && k <= s.rows * s.cols
    requires Run(s, rule, g0, width, k).Some?
    ensures forall i, j :: 0 <= i < |g0| && 0 <= j < width && !InRegion(s, i, j) ==>
      Run(s, rule, g0, width, k).value[i][j] == g0[i][j]
    decreases k
  {
    if k > 0 {
      RunFrame(s, rule, g0, width, k - 1);
      CellInRegion(s, k - 1);
    }
  }

  /** Region cells not yet reached still hold their seed value. */
  lemma {:induction false} RunNotYetWritten(s: Region, rule: CellRule, g0: Matrix, width: nat, k: nat)
    requires IsMatrix(g0, |g0|, width) && Fits(s, |g0|, width) && k <= s.rows * s.cols
    requires Run(s, rule, g0, width, k).Some?
    ensures forall i, j :: 0 <= i < |g0| && 0 <= j < width && InRegion(s, i, j) && RegionIndex(s, i, j) >= k ==>
      Run(s, rule, g0, width, k).value[i][j] == g0[i][j]
    decreases k
  {
    if k > 0 {
      RunNotYetWritten(s, rule, g0, width, k - 1);
      CellInRegion(s, k - 1);
    }
  }

  /** Each cell keeps the value written at its own step: no later step overwrites it. */
  lemma {:induction false} RunWritesOnce(s: Region, rule: CellRule, g0: Matrix, width: nat, j: nat, k: nat)
    requires IsMatrix(g0, |g0|, width) && Fits(s, |g0|, width) && j < k <= s.rows * s.cols
    requires Run(s, rule, g0, width, k).Some?
    ensures Run(s, rule, g0, width, j).Some?
    ensures s.cols > 0 && WindowInside(|g0|, width, CellRowAt(s, j), CellColAt(s, j), 5, 1)
    ensures var r, c := CellRowAt(s, j), CellColAt(s, j);
      var v := rule(r, c, Gather(Run(s, rule, g0, width, j).value, width, r, c));
      v.Some? && Run(s, rule, g0, width, k).value[r][c] == v.value
    decreases k
  {
    ScanWindowInside(s, |g0|, width, j);
    if j < k - 1 {
      RunWritesOnce(s, rule, g0, width, j, k - 1);
      CellInRegion(s, j);
      CellInRegion(s, k - 1);
    }
  }

  /** Two rasters agree except on region cells whose index is at least `k`. */
  ghost predicate AgreeBefore(s: Region, g: Matrix, h: Matrix, width: nat, k: nat)
  {
    && IsMatrix(g, |g|, width) && IsMatrix(h, |g|, width)
    && forall i, j :: 0 <= i < |g| && 0 <= j < width && !(InRegion(s, i, j) && RegionIndex(s, i, j) >= k) ==>
      g[i][j] == h[i][j]
  }

  /** Every recurrent cell of step `k` is outside the region or was written at an earlier step. */
  lemma RecurrentCellsEarlier(s: Region, k: nat, t: nat)
    requires k < s.rows * s.cols && t < RecurrentLength
    ensures s.cols > 0
    ensures var i, j := RecurrentRow(CellRowAt(s, k), t), RecurrentCol(CellColAt(s, k), t);
      !InRegion(s, i, j) || RegionIndex(s, i, j) < k
  {
    CellInRegion(s, k);
    var r, c := CellRowAt(s, k), CellColAt(s, k);
    var i, j := RecurrentRow(r, t), RecurrentCol(c, t);
    assert t / 5 <= 4 && (t / 5 < 4 || t % 5 < 2);
    if InRegion(s, i, j) {
      RegionIndexMonotone(s, i, j, r, c);
    }
  }

  /** A step reads only cells on which the two rasters already agree. */
  lemma StepReadsAgreed(s: Region, g: Matrix, h: Matrix, width: nat, k: nat)
    requires Fits(s, |g|, width) && k < s.rows * s.cols
    requires AgreeBefore(s, g, h, width, k)
    ensures s.cols > 0 && WindowInside(|g|, width, CellRowAt(s, k), CellColAt(s, k), 5, 1)
    ensures Gather(g, width, CellRowAt(s, k), CellColAt(s, k)) == Gather(h, width, CellRowAt(s, k), CellColAt(s, k))
  {
    ScanWindowInside(s, |g|, width, k);
    var r, c := CellRowAt(s, k), CellColAt(s, k);
    forall t | 0 <= t < RecurrentLength
      ensures Gather(g, width, r, c)[t] == Gather(h, width, r, c)[t]
    {
      RecurrentCellsEarlier(s, k, t);
    }
  }

  /** Writing the same value at step `k` extends the agreement to index `k`. */
  lemma PutExtendsAgreement(s: Region, g: Matrix, h: Matrix, width: nat, k: nat, v: real)
    requires k < s.rows * s.cols && AgreeBefore(s, g, h, width, k)
    requires s.cols > 0 && 0 <= CellRowAt(s, k) < |g| && 0 <= CellColAt(s, k) < width
    ensures AgreeBefore(s, Put(g, width, CellRowAt(s, k), CellColAt(s, k), v), Put(h, width, CellRowAt(s, k), CellColAt(s, k), v), width, k + 1)
  {
    var r, c := CellRowAt(s, k), CellColAt(s, k);
    var g', h' := Put(g, width, r, c, v), Put(h, width, r, c, v);
    forall i, j | 0 <= i < |g| && 0 <= j < width && !(InRegion(s, i, j) && RegionIndex(s, i, j) >= k + 1)
      ensures g'[i][j] == h'[i][j]
    {
      if InRegion(s, i, j) && RegionIndex(s, i, j) == k {
        CellOfRegionIndex(s, i, j);
      }
    }
  }

  lemma {:induction false} RunAgreement(s: Region, rule: CellRule, g0: Matrix, h0: Matrix, width: nat, k: nat)
    requires Fits(s, |g0|, width) && k <= s.rows * s.cols
    requires AgreeBefore(s, g0, h0, width, 0)
    ensures Run(s, rule, g0, width, k).Some? == Run(s, rule, h0, width, k).Some?
    ensures Run(s, rule, g0, width, k).Some? ==>
      AgreeBefore(s, Run(s, rule, g0, width, k).value, Run(s, rule, h0, width, k).value, width, k)
    decreases k
  {
    if k > 0 {
      RunAgreement(s, rule, g0, h0, width, k - 1);
      if Run(s, rule, g0, width, k - 1).Some? {
        var g, h := Run(s, rule, g0, width, k - 1).value, Run(s, rule, h0, width, k - 1).value;
        StepReadsAgreed(s, g, h, width, k - 1);
        var r, c := CellRowAt(s, k - 1), CellColAt(s, k - 1);
        var v := rule(r, c, Gather(g, width, r, c));
        if v.Some? {
          PutExtendsAgreement(s, g, h, width, k - 1, v.value);
        }
      }
    }
  }

  /**
   * The seed values of the region are never read: two rasters that differ only inside
   * the region give the same result (or both raise).
   */
  lemma SeedIndependent(s: Region, rule: CellRule, g0: Matrix, h0: Matrix, width: nat)
    requires IsMatrix(g0, |g0|, width) && IsMatrix(h0, |g0|, width) && Fits(s, |g0|, width)
    requires forall i, j :: 0 <= i < |g0| && 0 <= j < width && !InRegion(s, i, j) ==> g0[i][j] == h0[i][j]
    ensures Run(s, rule, g0, width, s.rows * s.cols) == Run(s, rule, h0, width, s.rows * s.cols)
  {
    AgreeOutsideRegion(s, g0, h0, width);
    RunAgreementComplete(s, rule, g0, h0, width);
  }

  lemma RunAgreementComplete(s: Region, rule: CellRule, g0: Matrix, h0: Matrix, width: nat)
    requires Fits(s, |g0|, width) && AgreeBefore(s, g0, h0, width, 0)
    ensures Run(s, rule, g0, width, s.rows * s.cols) == Run(s, rule, h0, width, s.rows * s.cols)
  {
    var n := s.rows * s.cols;
    RunAgreement(s, rule, g0, h0, width, n);
    var rg, rh := Run(s, rule, g0, width, n), Run(s, rule, h0, width, n);
    if rg.Some? {
      AgreeEverywhere(s, rg.value, rh.value, width);
    }
  }

  lemma AgreeOutsideRegion(s: Region, g0: Matrix, h0: Matrix, width: nat)
    requires IsMatrix(g0, |g0|, width) && IsMatrix(h0, |g0|, width)
    requires forall i, j :: 0 <= i < |g0| && 0 <= j < width && !InRegion(s, i, j) ==> g0[i][j] == h0[i][j]
    ensures AgreeBefore(s, g0, h0, width, 0)
  {
    forall i, j | 0 <= i < |g0| && 0 <= j < width && !(InRegion(s, i, j) && RegionIndex(s, i, j) >= 0)
      ensures g0[i][j] == h0[i][j]
    {
      if InRegion(s, i, j) {
        CellOfRegionIndex(s, i, j);
      }
    }
  }

  /** Agreement up to the last index is equality. */
  lemma AgreeEverywhere(s: Region, g: Matrix, h: Matrix, width: nat)
    requires AgreeBefore(s, g, h, width, s.rows * s.cols)
    ensures g == h
  {
    forall i | 0 <= i < |g| ensures g[i] == h[i] {
      forall j | 0 <= j < width ensures g[i][j] == h[i][j] {
        if InRegion(s, i, j) {
          CellOfRegionIndex(s, i, j);
        }
      }
    }
  }

  // ---------------------------------------------------------------------------
  // The loops

  /** The first `k` steps of the scan succeed and leave the raster `g`. */
  ghost predicate Reached(s: Region, rule: CellRule, g0: Matrix, width: nat, k: nat, g: Matrix)
  {
    && IsMatrix(g0, |g0|, width) && Fits(s, |g0|, width) && k <= s.rows * s.cols
    && Run(s, rule, g0, width, k) == Some(g)
  }

  /**
   * The nested row/column loop shared by `generate` and `generate_other`: on success the
   * array holds the whole scan's result; otherwise the scan raised at step `stop`, and the
   * array holds the raster the first `stop` steps left.
   */
  method ScanRaster(s: Region, rule: CellRule, generated: array2<real>) returns (ok: bool, ghost stop: nat)
    requires Fits(s, generated.Length0, generated.Length1)
    modifies generated
    ensures ok <==> Run(s, rule, old(Snapshot(generated)), generated.Length1, s.rows * s.cols).Some?
    ensures ok ==> Snapshot(generated) == Run(s, rule, old(Snapshot(generated)), generated.Length1, s.rows * s.cols).value
    ensures !ok ==> StoppedAt(s, rule, old(Snapshot(generated)), generated.Length1, stop, Snapshot(generated))
  {
    ghost var g0 := Snapshot(generated);
    var p := s.padding;
    var r := p;
    while r < s.rows + p
      invariant p <= r <= s.rows + p || (s.rows == 0 && r == p)
      invariant Reached(s, rule, g0, generated.Length1, RowStart(s, r), Snapshot(generated))
    {
      ok, stop := ScanRow(s, rule, generated, r, g0);
      if !ok {
        RunFailureStays(s, rule, g0, generated.Length1, stop + 1, s.rows * s.cols);
        return;
      }
      r := r + 1;
    }
    return true, 0;
  }

  /** The inner loop: the cells of row `r`. */
  method ScanRow(s: Region, rule: CellRule, generated: array2<real>, r: int, ghost g0: Matrix)
      returns (ok: bool, ghost stop: nat)
    requires s.padding <= r < s.rows + s.padding
    requires Reached(s, rule, g0, generated.Length1, RowStart(s, r), Snapshot(generated))
    requires |g0| == generated.Length0
    modifies generated
    ensures ok ==> Reached(s, rule, g0, generated.Length1, RowStart(s, r + 1), Snapshot(generated))
    ensures !ok ==> StoppedAt(s, rule, g0, generated.Length1, stop, Snapshot(generated))
  {
    RowEnd(s, r);
    ghost var k := RowStart(s, r);
    var c := s.padding;
    while c < s.cols + s.padding
      invariant s.padding <= c <= s.cols + s.padding
      invariant k == RowStart(s, r) + (c - s.padding) == RegionIndex(s, r, c)
      invariant Reached(s, rule, g0, generated.Length1, k, Snapshot(generated))
    {
      ok := ScanCell(s, rule, generated, r, c, g0, k);
      if !ok {
        return false, k;
      }
      k := k + 1;
      c := c + 1;
    }
    return true, 0;
  }

  /** The body of the inner loop: compute the value of `(r, c)` from its recurrent cells and store it. */
  method ScanCell(s: Region, rule: CellRule, generated: array2<real>, r: int, c: int, ghost g0: Matrix, ghost k: nat)
      returns (ok: bool)
    requires k < s.rows * s.cols && InRegion(s, r, c) && RegionIndex(s, r, c) == k
    requires Reached(s, rule, g0, generated.Length1, k, Snapshot(generated)) && |g0| == generated.Length0
    modifies generated
    ensures ok ==> Reached(s, rule, g0, generated.Length1, k + 1, Snapshot(generated))
    ensures !ok ==> StoppedAt(s, rule, g0, generated.Length1, k, Snapshot(generated))
  {
    var width := generated.Length1;
    RunNext(s, rule, g0, width, k, r, c);
    var cur := Snapshot(generated);
    var v := rule(r, c, Gather(cur, width, r, c));
    if v.None? {
      return false;
    }
    generated[r, c] := v.value;
    SnapshotAfterPut(generated, cur, r, c, v.value);
    return true;
  }

  /** Writing one element of the array is `Put` on its snapshot. */
  lemma SnapshotAfterPut(a: array2<real>, before: Matrix, r: int, c: int, v: real)
    requires IsMatrix(before, a.Length0, a.Length1) && 0 <= r < a.Length0 && 0 <= c < a.Length1
    requires a[r, c] == v
    requires forall i, j :: 0 <= i < a.Length0 && 0 <= j < a.Length1 && (i != r || j != c) ==> a[i, j] == before[i][j]
    ensures Snapshot(a) == Put(before, a.Length1, r, c, v)
  {
    forall i | 0 <= i < a.Length0 ensures Snapshot(a)[i] == Put(before, a.Length1, r, c, v)[i] {
    }
  }
}
