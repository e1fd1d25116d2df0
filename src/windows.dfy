/**
 * Window extraction and dataset tiling (nn_generator/libraries/basic/parsing.py and its
 * copy nn_generator/libraries/parsing.py). `get_window` cuts a `cut*reduction` square
 * placed two rows above centre, so that at reduction 1 and cut 5 the target cell is the
 * middle of the last row; `parse` collects one flattened window per interior cell.
 */
module Windows {
  import opened Numeric
  import opened Matrices

  /** Row of the top-left corner of the square that `get_window` cuts. */
  function WindowTop(row: int, cut: nat, red: nat): int
  {
    row - 2 - (cut * red) / 2
  }

  /** Column of the top-left corner of the square that `get_window` cuts. */
  function WindowLeft(col: int, cut: nat, red: nat): int
  {
    col - (cut * red) / 2
  }

  /** The `cut*red` square for `(row, col)` lies inside a `rows x cols` raster. */
  predicate WindowInside(rows: nat, cols: nat, row: int, col: int, cut: nat, red: nat)
  {
    && 0 <= WindowTop(row, cut, red) && WindowTop(row, cut, red) + cut * red <= rows
    && 0 <= WindowLeft(col, cut, red) && WindowLeft(col, cut, red) + cut * red <= cols
  }

  lemma MultipleOf(cut: nat, red: nat)
    requires red >= 1
    ensures (cut * red) % red == 0 && (cut * red) / red == cut
  {
    DivModUnique(cut * red, red, cut, 0);
  }

  /** Euclidean division is determined by quotient and remainder. */
  lemma DivModUnique(x: int, c: int, q: int, r: int)
    requires c > 0 && 0 <= r < c && x == q * c + r
    ensures x / c == q && x % c == r
  {
    var d := q - x / c;
    assert d * c == x % c - r by {
      assert x == (x / c) * c + x % c;
      assert d * c == q * c - (x / c) * c;
    }
    MulBySign(d, c);
  }

  lemma MulBySign(d: int, c: int)
    requires c > 0
    ensures d >= 1 ==> d * c >= c
    ensures d <= -1 ==> d * c <= -c
  {
    assert d * c - c == (d - 1) * c;
    assert d * c + c == (d + 1) * c;
  }

  /** `get_window(image, row, col, reduction, cut)` on a window inside the image. */
  function GetWindow(image: Matrix, cols: nat, row: int, col: int, red: nat, cut: nat): (w: Matrix)
    requires red >= 1 && IsMatrix(image, |image|, cols)
    requires WindowInside(|image|, cols, row, col, cut, red)
    ensures IsMatrix(w, cut, cut)
  {
    var ws := cut * red;
    var top, left := WindowTop(row, cut, red), WindowLeft(col, cut, red);
    CutoutInBounds(image, |image|, cols, top, left, ws, ws);
    MultipleOf(cut, red);
    ScaleDown(Cutout(image, top, left, ws, ws), ws, red)
  }

  /** At reduction 1 the window is the image itself, cell by cell. */
  lemma WindowAtReductionOne(image: Matrix, cols: nat, row: int, col: int, cut: nat)
    requires IsMatrix(image, |image|, cols)
    requires WindowInside(|image|, cols, row, col, cut, 1)
    ensures forall i, j :: 0 <= i < cut && 0 <= j < cut ==>
      GetWindow(image, cols, row, col, 1, cut)[i][j] == image[WindowTop(row, cut, 1) + i][WindowLeft(col, cut, 1) + j]
  {
    var top, left := WindowTop(row, cut, 1), WindowLeft(col, cut, 1);
    assert cut * 1 == cut;
    CutoutInBounds(image, |image|, cols, top, left, cut, cut);
    ScaleDownByOne(Cutout(image, top, left, cut, cut), cut);
  }

  /** `(r1, c1)` comes strictly before `(r2, c2)` in row-major order. */
  predicate Before(r1: int, c1: int, r2: int, c2: int)
  {
    r1 < r2 || (r1 == r2 && c1 < c2)
  }

  /** The cell at flattened position `k` of the 5 x 5 reduction-1 window around `(row, col)`. */
  function RecurrentRow(row: int, k: nat): int
  {
    row - 4 + k / 5
  }

  function RecurrentCol(col: int, k: nat): int
  {
    col - 2 + k % 5
  }

  /**
   * With cut 5 and reduction 1 the flattened window holds `image[row][col]` at index 22
   * (`cut*cut - 3`), and each of indices 0..21 holds a cell strictly before `(row, col)`
   * in row-major order: the four rows above, then the two cells to the left.
   */
  lemma RecurrentLayout(image: Matrix, cols: nat, row: int, col: int)
    requires IsMatrix(image, |image|, cols)
    requires WindowInside(|image|, cols, row, col, 5, 1)
    ensures |Flatten(GetWindow(image, cols, row, col, 1, 5))| == 25
    ensures Flatten(GetWindow(image, cols, row, col, 1, 5))[22] == image[row][col]
    ensures forall k :: 0 <= k < 22 ==>
      && 0 <= RecurrentRow(row, k) < |image| && 0 <= RecurrentCol(col, k) < cols
      && Flatten(GetWindow(image, cols, row, col, 1, 5))[k] == image[RecurrentRow(row, k)][RecurrentCol(col, k)]
      && Before(RecurrentRow(row, k), RecurrentCol(col, k), row, col)
  {
    var w := GetWindow(image, cols, row, col, 1, 5);
    WindowAtReductionOne(image, cols, row, col, 5);
    assert WindowTop(row, 5, 1) == row - 4 && WindowLeft(col, 5, 1) == col - 2;
    RecurrentCells(image, cols, row, col, w);
  }

  lemma RecurrentCells(image: Matrix, cols: nat, row: int, col: int, w: Matrix)
    requires IsMatrix(image, |image|, cols) && IsMatrix(w, 5, 5)
    requires WindowInside(|image|, cols, row, col, 5, 1)
    requires forall i, j :: 0 <= i < 5 && 0 <= j < 5 ==> w[i][j] == image[row - 4 + i][col - 2 + j]
    ensures |Flatten(w)| == 25 && Flatten(w)[22] == image[row][col]
    ensures forall k :: 0 <= k < 22 ==>
      && 0 <= RecurrentRow(row, k) < |image| && 0 <= RecurrentCol(col, k) < cols
      && Flatten(w)[k] == image[RecurrentRow(row, k)][RecurrentCol(col, k)]
      && Before(RecurrentRow(row, k), RecurrentCol(col, k), row, col)
  {
    FlattenAt(w, 5, 5, 4, 2);
    forall k | 0 <= k < 22
      ensures && 0 <= RecurrentRow(row, k) < |image| && 0 <= RecurrentCol(col, k) < cols
              && Flatten(w)[k] == image[RecurrentRow(row, k)][RecurrentCol(col, k)]
              && Before(RecurrentRow(row, k), RecurrentCol(col, k), row, col)
    {
      RecurrentCell(image, cols, row, col, w, k);
    }
  }

  lemma RecurrentCell(image: Matrix, cols: nat, row: int, col: int, w: Matrix, k: nat)
    requires IsMatrix(image, |image|, cols) && IsMatrix(w, 5, 5)
    requires WindowInside(|image|, cols, row, col, 5, 1)
    requires forall i, j :: 0 <= i < 5 && 0 <= j < 5 ==> w[i][j] == image[row - 4 + i][col - 2 + j]
    requires k < 22
    ensures 0 <= RecurrentRow(row, k) < |image| && 0 <= RecurrentCol(col, k) < cols
    ensures k < |Flatten(w)| && Flatten(w)[k] == image[RecurrentRow(row, k)][RecurrentCol(col, k)]
    ensures Before(RecurrentRow(row, k), RecurrentCol(col, k), row, col)
  {
    var i, j := k / 5, k % 5;
    assert i * 5 + j == k;
    assert i <= 4 && (i < 4 || j < 2);
    FlattenAt(w, 5, 5, i, j);
  }

  /**
   * Half the widest window (cut 5, reduction 64) is 160: every window with cut 5 and
   * reduction at most 64 around a cell at least 162 rows from the top, 160 rows from the
   * bottom and 160 columns from either side lies inside the raster.
   */
  lemma WindowFits(rows: nat, cols: nat, row: int, col: int, red: nat)
    requires 1 <= red <= 64
    requires 162 <= row < rows - 160 && 160 <= col < cols - 160
    ensures WindowInside(rows, cols, row, col, 5, red)
  {
  }

  // ---------------------------------------------------------------------------
  // parse

  const HalfWidth: nat := 160

  /** `row_range`: rows `[HalfWidth + 2, rows - HalfWidth)`; negative for small images. */
  function RowRange(rows: nat): int
  {
    rows - HalfWidth - (HalfWidth + 2)
  }

  /** `col_range`: columns `[HalfWidth, cols - HalfWidth)`. */
  function ColRange(cols: nat): int
  {
    cols - HalfWidth - HalfWidth
  }

  function Clamp0(x: int): nat
  {
    if x < 0 then 0 else x
  }

  /** The number of interior cells, hence of tokens. */
  function TokenCount(rows: nat, cols: nat): nat
  {
    Clamp0(RowRange(rows)) * Clamp0(ColRange(cols))
  }

  /** The length of `[None] * (row_range * col_range)`: Python gives `[]` for a negative count. */
  function TokenCountAsWritten(rows: nat, cols: nat): nat
  {
    Clamp0(RowRange(rows) * ColRange(cols))
  }

  /** The interior cell handled for index `i`: `(row_start + i // col_range, col_start + i % col_range)`. */
  function CellRow(i: nat, colRange: nat): int
    requires colRange > 0
  {
    HalfWidth + 2 + i / colRange
  }

  function CellCol(i: nat, colRange: nat): int
    requires colRange > 0
  {
    HalfWidth + i % colRange
  }

  /** The index of an interior cell, row-major. */
  function CellIndex(row: int, col: int, colRange: nat): int
  {
    (row - (HalfWidth + 2)) * colRange + (col - HalfWidth)
  }

  /** The index map of `parse` is a bijection from `[0, row_range * col_range)` onto the interior cells. */
  lemma IndexMapBijective(rowRange: nat, colRange: nat)
    requires colRange > 0
    ensures forall i :: 0 <= i < rowRange * colRange ==>
      && HalfWidth + 2 <= CellRow(i, colRange) < HalfWidth + 2 + rowRange
      && HalfWidth <= CellCol(i, colRange) < HalfWidth + colRange
      && CellIndex(CellRow(i, colRange), CellCol(i, colRange), colRange) == i
    ensures forall row, col :: HalfWidth + 2 <= row < HalfWidth + 2 + rowRange && HalfWidth <= col < HalfWidth + colRange ==>
      && 0 <= CellIndex(row, col, colRange) < rowRange * colRange
      && CellRow(CellIndex(row, col, colRange), colRange) == row
      && CellCol(CellIndex(row, col, colRange), colRange) == col
  {
    forall i | 0 <= i < rowRange * colRange
      ensures HalfWidth + 2 <= CellRow(i, colRange) < HalfWidth + 2 + rowRange
      ensures HalfWidth <= CellCol(i, colRange) < HalfWidth + colRange
      ensures CellIndex(CellRow(i, colRange), CellCol(i, colRange), colRange) == i
    {
      IndexToCell(i, rowRange, colRange);
    }
    forall row, col | HalfWidth + 2 <= row < HalfWidth + 2 + rowRange && HalfWidth <= col < HalfWidth + colRange
      ensures 0 <= CellIndex(row, col, colRange) < rowRange * colRange
      ensures CellRow(CellIndex(row, col, colRange), colRange) == row
      ensures CellCol(CellIndex(row, col, colRange), colRange) == col
    {
      CellToIndex(row, col, rowRange, colRange);
    }
  }

  lemma IndexToCell(i: nat, rowRange: nat, colRange: nat)
    requires colRange > 0 && i < rowRange * colRange
    ensures HalfWidth + 2 <= CellRow(i, colRange) < HalfWidth + 2 + rowRange
    ensures HalfWidth <= CellCol(i, colRange) < HalfWidth + colRange
    ensures CellIndex(CellRow(i, colRange), CellCol(i, colRange), colRange) == i
  {
    DivBelow(i, rowRange, colRange);
  }

  lemma CellToIndex(row: int, col: int, rowRange: nat, colRange: nat)
    requires HalfWidth + 2 <= row < HalfWidth + 2 + rowRange && HalfWidth <= col < HalfWidth + colRange
    ensures 0 <= CellIndex(row, col, colRange) < rowRange * colRange
    ensures CellRow(CellIndex(row, col, colRange), colRange) == row
    ensures CellCol(CellIndex(row, col, colRange), colRange) == col
  {
    IndexOfCell(row - (HalfWidth + 2), col - HalfWidth, rowRange, colRange);
  }

  lemma IndexOfCell(a: nat, b: nat, rowRange: nat, colRange: nat)
    requires a < rowRange && b < colRange
    ensures 0 <= a * colRange + b < rowRange * colRange
    ensures (a * colRange + b) / colRange == a && (a * colRange + b) % colRange == b
  {
    BlockFits(a, rowRange, colRange);
    DivModOf(a, b, colRange);
  }

  lemma DivBelow(i: nat, rowRange: nat, colRange: nat)
    requires colRange > 0 && i < rowRange * colRange
    ensures i / colRange < rowRange
    ensures (i / colRange) * colRange + i % colRange == i
  {
    if i / colRange >= rowRange {
      MulMonotone(rowRange, i / colRange, colRange);
    }
  }

  lemma MulMonotone(a: nat, b: nat, c: nat)
    requires a <= b
    ensures a * c <= b * c
  {
  }

  lemma DivModOf(a: nat, b: nat, c: nat)
    requires b < c
    ensures (a * c + b) / c == a && (a * c + b) % c == b
  {
    DivModUnique(a * c + b, c, a, b);
  }

  /** Consecutive indices visit the interior cells in row-major order. */
  lemma IndexMapOrdered(i: nat, j: nat, colRange: nat)
    requires colRange > 0 && i < j
    ensures Before(CellRow(i, colRange), CellCol(i, colRange), CellRow(j, colRange), CellCol(j, colRange))
  {
    DivBelow(i, i / colRange + 1, colRange);
    DivBelow(j, j / colRange + 1, colRange);
    if i / colRange > j / colRange {
      MulMonotone(j / colRange + 1, i / colRange, colRange);
    }
  }

  /** Every window `parse` asks for lies inside the image. */
  ghost predicate ParseFits(rows: nat, cols: nat, cut: nat, red: nat)
  {
    forall row, col :: 0 <= row - (HalfWidth + 2) < RowRange(rows) && 0 <= col - HalfWidth < ColRange(cols) ==>
      WindowInside(rows, cols, row, col, cut, red)
  }

  /** With cut 5, any reduction up to 64 fits. */
  lemma ParseFitsUpTo64(rows: nat, cols: nat, red: nat)
    requires 1 <= red <= 64
    ensures ParseFits(rows, cols, 5, red)
  {
    forall row, col | 0 <= row - (HalfWidth + 2) < RowRange(rows) && 0 <= col - HalfWidth < ColRange(cols)
      ensures WindowInside(rows, cols, row, col, 5, red)
    {
      WindowFits(rows, cols, row, col, red);
    }
  }

  /** One token: the flattened window of an interior cell. */
  function Token(image: Matrix, cols: nat, row: int, col: int, cut: nat, red: nat): (t: seq<real>)
    requires red >= 1 && IsMatrix(image, |image|, cols)
    requires WindowInside(|image|, cols, row, col, cut, red)
    ensures |t| == cut * cut
  {
    var w := GetWindow(image, cols, row, col, red, cut);
    FlattenLength(w, cut, cut);
    Flatten(w)
  }

  /** The tokens of the interior, one row of cells per row of the grid. */
  function TokenGrid(image: Matrix, cols: nat, cut: nat, red: nat): (g: seq<seq<seq<real>>>)
    requires red >= 1 && IsMatrix(image, |image|, cols)
    requires ParseFits(|image|, cols, cut, red)
    ensures IsMatrix(g, Clamp0(RowRange(|image|)), Clamp0(ColRange(cols)))
  {
    var rr, cr := Clamp0(RowRange(|image|)), Clamp0(ColRange(cols));
    seq(rr, a requires 0 <= a < rr =>
      seq(cr, b requires 0 <= b < cr => Token(image, cols, HalfWidth + 2 + a, HalfWidth + b, cut, red)))
  }

  /** What the basic `parse` stores in `tokens[i]`, for every index `i`. */
  function IndexedTokens(image: Matrix, cols: nat, cut: nat, red: nat): (ts: seq<seq<real>>)
    requires red >= 1 && IsMatrix(image, |image|, cols)
    requires ParseFits(|image|, cols, cut, red)
    ensures |ts| == TokenCount(|image|, cols)
  {
    var cr := Clamp0(ColRange(cols));
    seq(TokenCount(|image|, cols), i requires 0 <= i < TokenCount(|image|, cols) =>
      DivBelow(i, Clamp0(RowRange(|image|)), cr);
      Token(image, cols, CellRow(i, cr), CellCol(i, cr), cut, red))
  }

  /** Both versions of `parse` produce the same tokens: the index map walks the grid row by row. */
  lemma ParseVersionsAgree(image: Matrix, cols: nat, cut: nat, red: nat)
    requires red >= 1 && IsMatrix(image, |image|, cols)
    requires ParseFits(|image|, cols, cut, red)
    ensures IndexedTokens(image, cols, cut, red) == Flatten(TokenGrid(image, cols, cut, red))
    ensures forall t :: t in IndexedTokens(image, cols, cut, red) ==> |t| == cut * cut
  {
    var rr, cr := Clamp0(RowRange(|image|)), Clamp0(ColRange(cols));
    var g := TokenGrid(image, cols, cut, red);
    var ts := IndexedTokens(image, cols, cut, red);
    FlattenLength(g, rr, cr);
    forall i | 0 <= i < |ts| ensures ts[i] == Flatten(g)[i] {
      TokenAgrees(image, cols, cut, red, i);
    }
  }

  /** Index `i` of the basic `parse` holds the token the grid version puts at flat position `i`. */
  lemma TokenAgrees(image: Matrix, cols: nat, cut: nat, red: nat, i: nat)
    requires red >= 1 && IsMatrix(image, |image|, cols)
    requires ParseFits(|image|, cols, cut, red)
    requires i < TokenCount(|image|, cols)
    ensures i < |Flatten(TokenGrid(image, cols, cut, red))|
    ensures IndexedTokens(image, cols, cut, red)[i] == Flatten(TokenGrid(image, cols, cut, red))[i]
  {
    var rr, cr := Clamp0(RowRange(|image|)), Clamp0(ColRange(cols));
    var g := TokenGrid(image, cols, cut, red);
    DivBelow(i, rr, cr);
    var a, b := i / cr, i % cr;
    FlattenAt(g, rr, cr, a, b);
  }

  /** `parse` (nn_generator/libraries/basic/parsing.py): fill a pre-sized token list index by index. */
  method ParseIndexed(image: Matrix, cols: nat, cut: nat, red: nat) returns (tokens: seq<seq<real>>)
    requires red >= 1 && IsMatrix(image, |image|, cols)
    requires ParseFits(|image|, cols, cut, red)
    ensures tokens == IndexedTokens(image, cols, cut, red)
  {
    ghost var ts := IndexedTokens(image, cols, cut, red);
    var n := TokenCount(|image|, cols);
    var slots := new seq<real>[n](_ => []);
    var i := 0;
    while i < n
      invariant 0 <= i <= n
      invariant forall k :: 0 <= k < i ==> slots[k] == ts[k]
    {
      slots[i] := IndexedToken(image, cols, cut, red, i);
      i := i + 1;
    }
    tokens := slots[..];
  }

  /** The body of the basic `parse` loop: the token of cell `(row_start + i // col_range, col_start + i % col_range)`. */
  method IndexedToken(image: Matrix, cols: nat, cut: nat, red: nat, i: nat) returns (t: seq<real>)
    requires red >= 1 && IsMatrix(image, |image|, cols)
    requires ParseFits(|image|, cols, cut, red)
    requires i < TokenCount(|image|, cols)
    ensures t == IndexedTokens(image, cols, cut, red)[i]
  {
    var rowRange, colRange := RowRange(|image|), ColRange(cols);
    IndexedTokenAt(image, cols, cut, red, i);
    var row := HalfWidth + 2 + i / colRange;
    var col := HalfWidth + i % colRange;
    t := Token(image, cols, row, col, cut, red);
  }

  /** Index `i` of the basic `parse` holds the token of cell `(row_start + i // col_range, col_start + i % col_range)`. */
  lemma IndexedTokenAt(image: Matrix, cols: nat, cut: nat, red: nat, i: nat)
    requires red >= 1 && IsMatrix(image, |image|, cols)
    requires ParseFits(|image|, cols, cut, red)
    requires i < TokenCount(|image|, cols)
    ensures ColRange(cols) > 0
    ensures WindowInside(|image|, cols, HalfWidth + 2 + i / ColRange(cols), HalfWidth + i % ColRange(cols), cut, red)
    ensures IndexedTokens(image, cols, cut, red)[i] ==
      Token(image, cols, HalfWidth + 2 + i / ColRange(cols), HalfWidth + i % ColRange(cols), cut, red)
  {
    IndexedCell(|image|, cols, i);
    var cr := ColRange(cols);
    var row, col := HalfWidth + 2 + i / cr, HalfWidth + i % cr;
    assert CellRow(i, Clamp0(cr)) == row && CellCol(i, Clamp0(cr)) == col;
    assert 0 <= row - (HalfWidth + 2) < RowRange(|image|) && 0 <= col - HalfWidth < cr;
    assert WindowInside(|image|, cols, row, col, cut, red);
  }

  /** Index `i` of the basic `parse` names an interior cell. */
  lemma IndexedCell(rows: nat, cols: nat, i: nat)
    requires i < TokenCount(rows, cols)
    ensures ColRange(cols) > 0 && Clamp0(ColRange(cols)) == ColRange(cols)
    ensures 0 <= i / ColRange(cols) < RowRange(rows) && 0 <= i % ColRange(cols) < ColRange(cols)
    ensures CellRow(i, ColRange(cols)) == HalfWidth + 2 + i / ColRange(cols)
    ensures CellCol(i, ColRange(cols)) == HalfWidth + i % ColRange(cols)
  {
    PositiveFactors(Clamp0(RowRange(rows)), Clamp0(ColRange(cols)));
    DivBelow(i, Clamp0(RowRange(rows)), Clamp0(ColRange(cols)));
  }

  lemma PositiveFactors(a: nat, b: nat)
    ensures a * b > 0 ==> a > 0 && b > 0
  {
    if a == 0 || b == 0 {
      assert a * b == 0;
    }
  }


  /** `parse` (nn_generator/libraries/parsing.py): append one token per cell in a row-major nested loop. */
  method ParseLoop(image: Matrix, cols: nat, cut: nat, red: nat) returns (tokens: seq<seq<real>>)
    requires red >= 1 && IsMatrix(image, |image|, cols)
    requires ParseFits(|image|, cols, cut, red)
    ensures tokens == Flatten(TokenGrid(image, cols, cut, red))
  {
    ghost var g := TokenGrid(image, cols, cut, red);
    tokens := [];
    var row := HalfWidth + 2;
    while row < |image| - HalfWidth
      invariant HalfWidth + 2 <= row && (row == HalfWidth + 2 || row <= |image| - HalfWidth)
      invariant tokens == Flatten(g[..row - (HalfWidth + 2)])
    {
      ghost var a := row - (HalfWidth + 2);
      tokens := ParseRow(image, cols, cut, red, row, tokens);
      assert g[..a + 1][..a] == g[..a];
      row := row + 1;
    }
    assert g[..row - (HalfWidth + 2)] == g by {
      if RowRange(|image|) <= 0 {
        assert |g| == 0;
      }
    }
  }

  /** The body of the nested `parse` loops: the token of one interior cell. */
  method GridToken(image: Matrix, cols: nat, cut: nat, red: nat, row: int, col: int) returns (t: seq<real>)
    requires red >= 1 && IsMatrix(image, |image|, cols)
    requires ParseFits(|image|, cols, cut, red)
    requires HalfWidth + 2 <= row < |image| - HalfWidth && HalfWidth <= col < cols - HalfWidth
    ensures t == TokenGrid(image, cols, cut, red)[row - (HalfWidth + 2)][col - HalfWidth]
  {
    t := Token(image, cols, row, col, cut, red);
  }

  /** The inner loop of the nested `parse`: append the tokens of one row of interior cells. */
  method ParseRow(image: Matrix, cols: nat, cut: nat, red: nat, row: int, before: seq<seq<real>>)
      returns (tokens: seq<seq<real>>)
    requires red >= 1 && IsMatrix(image, |image|, cols)
    requires ParseFits(|image|, cols, cut, red)
    requires HalfWidth + 2 <= row < |image| - HalfWidth
    ensures 0 <= row - (HalfWidth + 2) < |TokenGrid(image, cols, cut, red)|
    ensures tokens == before + TokenGrid(image, cols, cut, red)[row - (HalfWidth + 2)]
  {
    ghost var ga := TokenGrid(image, cols, cut, red)[row - (HalfWidth + 2)];
    tokens := before;
    var col := HalfWidth;
    while col < cols - HalfWidth
      invariant HalfWidth <= col && (col == HalfWidth || col <= cols - HalfWidth)
      invariant tokens == before + ga[..col - HalfWidth]
    {
      var t := GridToken(image, cols, cut, red, row, col);
      tokens := tokens + [t];
      assert ga[..col + 1 - HalfWidth] == ga[..col - HalfWidth] + [ga[col - HalfWidth]];
      col := col + 1;
    }
    assert ga[..col - HalfWidth] == ga by {
      if ColRange(cols) <= 0 {
        assert |ga| == 0;
      }
    }
  }


  /** Both versions of `parse` produce one `cut*cut` token per interior cell. */
  lemma ParseTokenShape(image: Matrix, cols: nat, cut: nat, red: nat)
    requires red >= 1 && IsMatrix(image, |image|, cols)
    requires ParseFits(|image|, cols, cut, red)
    ensures |Flatten(TokenGrid(image, cols, cut, red))| == Clamp0(RowRange(|image|)) * Clamp0(ColRange(cols))
    ensures forall t :: t in Flatten(TokenGrid(image, cols, cut, red)) ==> |t| == cut * cut
  {
    ParseVersionsAgree(image, cols, cut, red);
  }

  /**
   * As written, the basic `parse` sizes its list by `row_range * col_range`: for an image
   * smaller than the padding in both directions both ranges are negative and the product
   * is positive, although no interior cell exists.
   */
  lemma TokenCountAsWrittenOnSmallImage()
    ensures RowRange(100) == -222 && ColRange(100) == -220
    ensures TokenCountAsWritten(100, 100) == 48840
    ensures TokenCount(100, 100) == 0
  {
  }

  /** The two counts agree whenever at least one range is non-negative. */
  lemma TokenCountsAgree(rows: nat, cols: nat)
    requires RowRange(rows) >= 0 || ColRange(cols) >= 0
    ensures TokenCountAsWritten(rows, cols) == TokenCount(rows, cols)
  {
    if RowRange(rows) < 0 {
      assert RowRange(rows) * ColRange(cols) <= 0;
    } else if ColRange(cols) < 0 {
      assert RowRange(rows) * ColRange(cols) <= 0;
    }
  }
}
