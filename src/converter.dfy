/**
 * The command-line converter around `OSMParser`: it reads an ESRI ASCII grid of heights,
 * upscaling it by an integer factor with nearest-neighbour sampling, writes the heights as a
 * plain ("P2") PGM image, and, given an OpenStreetMap file, writes one PGM per map layer.
 *
 * Files are sequences of lines (line terminators are not modelled); `int.Parse`,
 * `float.Parse` and `float.ToString` are parameters.
 */
module Converter {
  import opened Wrappers
  import opened Numeric
  import Config
  import OsmReader
  import OsmLayers

  /** `int.Parse` and `float.Parse`; `None` where they throw. */
  datatype Parsers = Parsers(toInt: string -> Option<int>, toFloat: string -> Option<real>)

  // ---------------------------------------------------------------------------
  // Integer arithmetic of the resampling

  lemma MulSign(a: int, d: int)
    requires d >= 1
    ensures a <= 0 ==> a * d <= 0
    ensures a >= 1 ==> a * d >= d
  {
    if a >= 1 {
      assert a * d == (a - 1) * d + d;
      assert (a - 1) * d >= 0;
    } else {
      assert a * d == -((-a) * d);
      assert (-a) * d >= 0;
    }
  }

  lemma DivUnique(n: int, d: int, q: int, r: int)
    requires d >= 1 && n == q * d + r && 0 <= r < d
    ensures n / d == q
  {
    var q', r' := n / d, n % d;
    assert (q' - q) * d == r - r';
    MulSign(q' - q, d);
    MulSign(q - q', d);
    assert (q - q') * d == r' - r;
  }

  /** The counters `bonusRow` and `bonusCol` divide out: `(t * n) / (n * s) == t / s`. */
  lemma DivCancel(t: int, n: int, s: int)
    requires t >= 0 && n >= 1 && s >= 1
    ensures (t * n) / (n * s) == t / s
  {
    var q, r := t / s, t % s;
    assert t * n == q * (n * s) + r * n by {
      assert t == q * s + r;
      assert t * n == (q * s + r) * n;
    }
    MulSign(r, n);
    MulSign(s - 1 - r, n);
    assert (s - 1 - r) * n + r * n + n == n * s;
    DivUnique(t * n, n * s, q, r * n);
  }

  /** Consecutive rows of the output read the same or the next input line. */
  lemma DivStep(t: int, s: int)
    requires t >= 1 && s >= 1
    ensures (t - 1) / s <= t / s <= (t - 1) / s + 1
  {
    var q, r := (t - 1) / s, (t - 1) % s;
    if r + 1 < s {
      DivUnique(t, s, q, r + 1);
    } else {
      DivUnique(t, s, q + 1, 0);
    }
  }

  lemma PositiveFactor(n: int, s: int)
    requires s >= 1 && n * s >= 1
    ensures n >= 1
  {
    MulSign(n, s);
  }

  /**
   * One step of the row counters: `lastRow` holds the line read for output row `t - 1` (counting
   * from the top); the test `bonusRow / height > lastRow` reads the next line exactly when row `t`
   * needs it.
   */
  lemma RowCounters(t: int, rows: int, scale: int)
    requires t >= 0 && rows >= 1 && scale >= 1
    ensures var last := if t == 0 then 0 else (t - 1) / scale;
      && ((t * rows) / (rows * scale) > last ==> last + 1 == t / scale)
      && ((t * rows) / (rows * scale) <= last ==> last == t / scale)
  {
    DivCancel(t, rows, scale);
    if t >= 1 {
      DivStep(t, scale);
    } else {
      assert t / scale == 0;
    }
  }

  // ---------------------------------------------------------------------------
  // The header

  /** The non-empty pieces, as `StringSplitOptions.RemoveEmptyEntries` keeps them. */
  function NonEmpty(pieces: seq<string>): (r: seq<string>)
    ensures |r| <= |pieces|
    ensures forall k :: 0 <= k < |r| ==> r[k] != [] && r[k] in pieces
    ensures forall k :: 0 <= k < |pieces| && pieces[k] != [] ==> pieces[k] in r
    decreases |pieces|
  {
    if pieces == [] then []
    else
      var rest := NonEmpty(pieces[1..]);
      assert forall k :: 1 <= k < |pieces| ==> pieces[k] == pieces[1..][k - 1];
      if pieces[0] == [] then rest else [pieces[0]] + rest
  }

  /** `line.Split(' ', StringSplitOptions.RemoveEmptyEntries)`. */
  function Fields(line: string): seq<string>
  {
    NonEmpty(Config.Split(line, ' '))
  }

  /** `reader.ReadLine().Split(...)[1]` on line `k`: `None` past the end of the file or with fewer than two fields. */
  function HeaderValue(lines: seq<string>, k: nat): Option<string>
  {
    if k < |lines| && |Fields(lines[k])| >= 2 then Some(Fields(lines[k])[1]) else None
  }

  function ParseIntAt(p: Parsers, lines: seq<string>, k: nat): Option<int>
  {
    var v := HeaderValue(lines, k);
    if v.Some? then p.toInt(v.value) else None
  }

  function ParseFloatAt(p: Parsers, lines: seq<string>, k: nat): Option<real>
  {
    var v := HeaderValue(lines, k);
    if v.Some? then p.toFloat(v.value) else None
  }

  /** `ncols`, `nrows`, `xllcorner`, `yllcorner`, `cellsize` and `NODATA_value`, one per line. */
  datatype Header = Header(cols: int, rows: int, xll: real, yll: real, cellSize: real, nodata: int)

  function ParseHeader(p: Parsers, lines: seq<string>): (h: Option<Header>)
    ensures h.Some? <==> (ParseIntAt(p, lines, 0).Some? && ParseIntAt(p, lines, 1).Some? && ParseFloatAt(p, lines, 2).Some?
      && ParseFloatAt(p, lines, 3).Some? && ParseFloatAt(p, lines, 4).Some? && ParseIntAt(p, lines, 5).Some?)
    ensures h.Some? ==> h.value.cols == ParseIntAt(p, lines, 0).value && h.value.rows == ParseIntAt(p, lines, 1).value
    ensures h.Some? ==> h.value.cellSize == ParseFloatAt(p, lines, 4).value && |lines| >= 6
  {
    var cols := ParseIntAt(p, lines, 0);
    var rows := ParseIntAt(p, lines, 1);
    var xll := ParseFloatAt(p, lines, 2);
    var yll := ParseFloatAt(p, lines, 3);
    var cellSize := ParseFloatAt(p, lines, 4);
    var nodata := ParseIntAt(p, lines, 5);
    if cols.Some? && rows.Some? && xll.Some? && yll.Some? && cellSize.Some? && nodata.Some? then
      Some(Header(cols.value, rows.value, xll.value, yll.value, cellSize.value, nodata.value))
    else None
  }

  /** The `out` parameters of `ParseHeights`. */
  datatype Georef = Georef(width: int, height: int, xll: real, yll: real, cellSize: real)

  function GeorefOf(h: Header, scale: int): (g: Georef)
    requires scale >= 1
    ensures g.width == h.cols * scale && g.height == h.rows * scale && g.cellSize * scale as real == h.cellSize
  {
    Georef(h.cols * scale, h.rows * scale, h.xll, h.yll, h.cellSize / scale as real)
  }

  // ---------------------------------------------------------------------------
  // The data lines

  /** `s.Split()`: the pieces between single whitespace characters, empty ones kept. */
  function SplitSpaces(s: string): (pieces: seq<string>)
    ensures |pieces| >= 1
    decreases |s|
  {
    if s == [] then [[]]
    else
      var rest := SplitSpaces(s[1..]);
      if Config.IsSpace(s[0]) then [[]] + rest else [[s[0]] + rest[0]] + rest[1..]
  }

  /** `line.Trim().Split()`. */
  function Words(line: string): seq<string>
  {
    SplitSpaces(Config.Strip(line))
  }

  /** Data line `k` (the `k`-th after the header); `ReadLine` gives `null` past the end. */
  function DataLine(lines: seq<string>, k: nat): Option<string>
  {
    if 6 + k < |lines| then Some(lines[6 + k]) else None
  }

  /** Field `col` of a split data line as a height: parsed, then truncated toward zero by `(int)`. */
  function FieldHeight(p: Parsers, words: seq<string>, col: int): Option<int>
  {
    if 0 <= col < |words| then
      var v := p.toFloat(words[col]);
      if v.Some? then Some(Trunc(v.value)) else None
    else None
  }

  /** The height field `col` of data line `k` holds. */
  function Cell(p: Parsers, lines: seq<string>, col: nat, k: nat): Option<int>
  {
    var line := DataLine(lines, k);
    if line.None? then None else FieldHeight(p, Words(line.value), col)
  }

  /** The data line output row `mapRow` is read from: the first line is the top (northern) row. */
  function SourceRow(h: Header, scale: int, mapRow: int): int
    requires scale >= 1
  {
    (h.rows * scale - 1 - mapRow) / scale
  }

  function RowAt(p: Parsers, lines: seq<string>, h: Header, scale: int, mapRow: int): Option<string>
    requires scale >= 1 && 0 <= mapRow < h.rows * scale
  {
    DataLine(lines, SourceRow(h, scale, mapRow))
  }

  /** `heights[mapCol, mapRow]`: field `mapCol / scale` of data line `(height - 1 - mapRow) / scale`. */
  function HeightAt(p: Parsers, lines: seq<string>, h: Header, scale: int, mapCol: int, mapRow: int): Option<int>
    requires scale >= 1 && 0 <= mapCol && 0 <= mapRow < h.rows * scale
  {
    Cell(p, lines, mapCol / scale, SourceRow(h, scale, mapRow))
  }

  /** `ParseHeights` returns without an exception. */
  predicate Loads(p: Parsers, lines: seq<string>, scale: int)
    requires scale >= 1
  {
    var h := ParseHeader(p, lines);
    && h.Some? && h.value.cols >= 0 && h.value.rows >= 0
    && (forall r :: 0 <= r < h.value.rows * scale ==> RowAt(p, lines, h.value, scale, r).Some?)
    && (forall c, r :: 0 <= c < h.value.cols * scale && 0 <= r < h.value.rows * scale ==>
          HeightAt(p, lines, h.value, scale, c, r).Some?)
  }

  /**
   * The column loop of `ParseHeights` for output row `mapRow`: column `mapCol` takes field
   * `bonusCol / width`, which is `mapCol / scale`.
   */
  method ReadRow(p: Parsers, words: seq<string>, cols: int, scale: int, heights: array2<int>, mapRow: int) returns (ok: bool)
    requires scale >= 1 && heights.Length0 == cols * scale && 0 <= mapRow < heights.Length1
    modifies heights
    ensures ok <==> forall c :: 0 <= c < heights.Length0 ==> FieldHeight(p, words, c / scale).Some?
    ensures ok ==> forall c :: 0 <= c < heights.Length0 ==> heights[c, mapRow] == FieldHeight(p, words, c / scale).value
    ensures forall c, r :: 0 <= c < heights.Length0 && 0 <= r < heights.Length1 && r != mapRow ==>
      heights[c, r] == old(heights[c, r])
  {
    var width := heights.Length0;
    var bonusCol := 0;
    var mapCol := 0;
    while mapCol < width
      invariant 0 <= mapCol <= width && bonusCol == mapCol * cols
      invariant forall c :: 0 <= c < mapCol ==>
        FieldHeight(p, words, c / scale).Some? && heights[c, mapRow] == FieldHeight(p, words, c / scale).value
      invariant forall c, r :: 0 <= c < width && 0 <= r < heights.Length1 && r != mapRow ==>
        heights[c, r] == old(heights[c, r])
    {
      ColumnSource(mapCol, cols, scale);
      ok := StoreField(p, words, bonusCol / width, heights, mapCol, mapRow);
      if !ok {
        return;
      }
      bonusCol := bonusCol + cols;
      mapCol := mapCol + 1;
    }
    return true;
  }

  /** `bonusCol / width`, with `bonusCol = mapCol * cols` and `width = cols * scale`, is `mapCol / scale`. */
  lemma ColumnSource(mapCol: int, cols: int, scale: int)
    requires scale >= 1 && 0 <= mapCol < cols * scale
    ensures (mapCol * cols) / (cols * scale) == mapCol / scale
  {
    PositiveFactor(cols, scale);
    DivCancel(mapCol, cols, scale);
  }

  /** The body of the column loop: parse field `x` and store it at `heights[mapCol, mapRow]`. */
  method StoreField(p: Parsers, words: seq<string>, x: int, heights: array2<int>, mapCol: int, mapRow: int) returns (ok: bool)
    requires 0 <= x && 0 <= mapCol < heights.Length0 && 0 <= mapRow < heights.Length1
    modifies heights
    ensures ok <==> FieldHeight(p, words, x).Some?
    ensures ok ==> heights[mapCol, mapRow] == FieldHeight(p, words, x).value
    ensures forall c, r :: 0 <= c < heights.Length0 && 0 <= r < heights.Length1 && (c != mapCol || r != mapRow) ==>
      heights[c, r] == old(heights[c, r])
  {
    if x >= |words| {
      return false;
    }
    var num := p.toFloat(words[x]);
    if num.None? {
      return false;
    }
    heights[mapCol, mapRow] := Trunc(num.value);
    return true;
  }


  /** Output row `mapRow` from its data line `line`. */
  method LoadRow(p: Parsers, lines: seq<string>, h: Header, scale: int, heights: array2<int>, mapRow: int, line: string)
    returns (ok: bool)
    requires scale >= 1 && heights.Length0 == h.cols * scale && heights.Length1 == h.rows * scale && 0 <= mapRow < heights.Length1
    requires RowAt(p, lines, h, scale, mapRow) == Some(line)
    modifies heights
    ensures ok <==> forall c :: 0 <= c < heights.Length0 ==> HeightAt(p, lines, h, scale, c, mapRow).Some?
    ensures ok ==> forall c :: 0 <= c < heights.Length0 ==> heights[c, mapRow] == HeightAt(p, lines, h, scale, c, mapRow).value
    ensures forall c, r :: 0 <= c < heights.Length0 && 0 <= r < heights.Length1 && r != mapRow ==>
      heights[c, r] == old(heights[c, r])
  {
    assert forall c :: 0 <= c < heights.Length0 ==> HeightAt(p, lines, h, scale, c, mapRow) == FieldHeight(p, Words(line), c / scale);
    ok := ReadRow(p, Words(line), h.cols, scale, heights, mapRow);
  }

  /** The row loop of `ParseHeights`, from the bottom output row up, reading a data line when `bonusRow` passes the next one. */
  method ReadRows(p: Parsers, lines: seq<string>, h: Header, scale: int, heights: array2<int>) returns (ok: bool)
    requires scale >= 1 && h.cols >= 0 && h.rows >= 0
    requires heights.Length0 == h.cols * scale && heights.Length1 == h.rows * scale
    modifies heights
    ensures ok <==> ((forall r :: 0 <= r < h.rows * scale ==> RowAt(p, lines, h, scale, r).Some?)
      && (forall c, r :: 0 <= c < h.cols * scale && 0 <= r < h.rows * scale ==> HeightAt(p, lines, h, scale, c, r).Some?))
    ensures ok ==> forall c, r :: 0 <= c < h.cols * scale && 0 <= r < h.rows * scale ==>
      heights[c, r] == HeightAt(p, lines, h, scale, c, r).value
  {
    var rows := h.rows;
    var width, height := heights.Length0, heights.Length1;
    var line := DataLine(lines, 0);
    var bonusRow, lastRow := 0, 0;
    var mapRow := height - 1;
    while mapRow >= 0
      invariant -1 <= mapRow < height
      invariant bonusRow == (height - 1 - mapRow) * rows
      invariant lastRow == (if mapRow == height - 1 then 0 else (height - 2 - mapRow) / scale)
      invariant line == DataLine(lines, lastRow)
      invariant forall r :: mapRow < r < height ==> RowAt(p, lines, h, scale, r).Some?
      invariant forall c, r :: 0 <= c < width && mapRow < r < height ==>
        HeightAt(p, lines, h, scale, c, r).Some? && heights[c, r] == HeightAt(p, lines, h, scale, c, r).value
      decreases mapRow
    {
      PositiveFactor(rows, scale);
      RowCounters(height - 1 - mapRow, rows, scale);
      if bonusRow / height > lastRow {
        line := DataLine(lines, lastRow + 1);
        lastRow := lastRow + 1;
      }
      assert lastRow == SourceRow(h, scale, mapRow);
      if line.None? {
        assert RowAt(p, lines, h, scale, mapRow).None?;
        return false;
      }
      ok := LoadRow(p, lines, h, scale, heights, mapRow, line.value);
      if !ok {
        return false;
      }
      bonusRow := bonusRow + rows;
      mapRow := mapRow - 1;
    }
    return true;
  }

  method ParseHeights(p: Parsers, lines: seq<string>, scale: int) returns (heights: array2<int>, geo: Georef, ok: bool)
    requires scale >= 1
    ensures fresh(heights)
    ensures ok <==> Loads(p, lines, scale)
    ensures ok ==> var h := ParseHeader(p, lines).value;
      && geo == GeorefOf(h, scale) && heights.Length0 == geo.width && heights.Length1 == geo.height
      && forall c, r :: 0 <= c < geo.width && 0 <= r < geo.height ==>
           heights[c, r] == HeightAt(p, lines, h, scale, c, r).value
  {
    heights := new int[0, 0];
    geo := Georef(0, 0, 0.0, 0.0, 0.0);
    var header := ParseHeader(p, lines);
    if header.None? {
      return heights, geo, false;
    }
    var h := header.value;
    geo := Georef(h.cols * scale, h.rows * scale, h.xll, h.yll, h.cellSize / scale as real);
    if h.cols < 0 || h.rows < 0 {
      // `new int[width, height]` throws on a negative size
      return heights, geo, false;
    }
    GridSize(h.cols, h.rows, scale);
    heights := new int[geo.width, geo.height];
    ok := ReadRows(p, lines, h, scale, heights);
  }

  lemma GridSize(cols: int, rows: int, scale: int)
    requires cols >= 0 && rows >= 0 && scale >= 1
    ensures cols * scale >= 0 && rows * scale >= 0
  {
  }

  /**
   * Nearest-neighbour upscaling: input cell `(i, k)` — field `i` of data line `k` — is read by
   * exactly the `scale` by `scale` block of output columns `[i*scale, (i+1)*scale)` and rows
   * `[(rows-1-k)*scale, (rows-k)*scale)`; so the first line covers the top rows.
   */
  lemma UpscaleBlock(h: Header, scale: int, i: int, k: int, mapCol: int, mapRow: int)
    requires scale >= 1 && 0 <= mapCol && 0 <= mapRow < h.rows * scale && 0 <= i && 0 <= k
    ensures mapCol / scale == i <==> i * scale <= mapCol < (i + 1) * scale
    ensures SourceRow(h, scale, mapRow) == k <==> (h.rows - 1 - k) * scale <= mapRow < (h.rows - k) * scale
  {
    BlockOf(mapCol, scale, i);
    var t := h.rows * scale - 1 - mapRow;
    BlockOf(t, scale, k);
    assert (h.rows - 1 - k) * scale == h.rows * scale - (k + 1) * scale;
    assert (h.rows - k) * scale == h.rows * scale - k * scale;
  }

  lemma BlockOf(n: int, s: int, q: int)
    requires n >= 0 && s >= 1
    ensures n / s == q <==> q * s <= n < (q + 1) * s
  {
    if q * s <= n < (q + 1) * s {
      DivUnique(n, s, q, n - q * s);
    }
    assert (n / s) * s <= n < (n / s + 1) * s;
  }

  /** Without upscaling the grid is copied cell for cell, turned so the first line is the last row. */
  lemma UnscaledCopy(p: Parsers, lines: seq<string>, h: Header, mapCol: int, mapRow: int)
    requires 0 <= mapCol && 0 <= mapRow < h.rows
    ensures HeightAt(p, lines, h, 1, mapCol, mapRow) == Cell(p, lines, mapCol, h.rows - 1 - mapRow)
  {
    DivUnique(mapCol, 1, mapCol, 0);
    DivUnique(h.rows - 1 - mapRow, 1, h.rows - 1 - mapRow, 0);
    assert SourceRow(h, 1, mapRow) == h.rows - 1 - mapRow;
  }

  // ---------------------------------------------------------------------------
  // Plain PGM text

  function Digit(d: int): char
    requires 0 <= d < 10
  {
    ('0' as int + d) as char
  }

  function DigitsOf(n: nat): (s: string)
    ensures |s| >= 1 && forall i :: 0 <= i < |s| ==> '0' <= s[i] <= '9'
    decreases n
  {
    if n < 10 then [Digit(n)] else DigitsOf(n / 10) + [Digit(n % 10)]
  }

  /** `int.ToString()` in decimal. */
  function IntText(n: int): (s: string)
    ensures |s| >= 1 && forall i :: 0 <= i < |s| ==> s[i] != ' '
  {
    if n < 0 then "-" + DigitsOf(-n) else DigitsOf(n)
  }

  /** The text of a row: the tokens with one space between each two. */
  function Joined(tokens: seq<string>): string
  {
    if tokens == [] then "" else Config.Join(tokens, ' ')
  }

  /** Reading a row back: splitting at spaces gives the tokens when none is empty or holds a space. */
  lemma JoinedReadsBack(tokens: seq<string>)
    requires |tokens| >= 1
    requires forall k, i :: 0 <= k < |tokens| && 0 <= i < |tokens[k]| ==> tokens[k][i] != ' '
    ensures Config.Split(Joined(tokens), ' ') == tokens
  {
    Config.JoinSplit(tokens, ' ');
  }

  /** The loop of a `Save*` row: write the separator (empty before the first token), then the token. */
  method WriteRow(tokens: seq<string>) returns (row: string)
    ensures row == Joined(tokens)
  {
    row := "";
    var separator := "";
    var x := 0;
    while x < |tokens|
      invariant 0 <= x <= |tokens| && row == Joined(tokens[..x])
      invariant separator == if x == 0 then "" else " "
    {
      if x > 0 {
        Config.JoinSnoc(tokens[..x], tokens[x], ' ');
      } else {
        assert tokens[..1] == [tokens[0]];
      }
      assert tokens[..x + 1] == tokens[..x] + [tokens[x]];
      row := row + separator + tokens[x];
      separator := " ";
      x := x + 1;
    }
    assert tokens[..x] == tokens;
  }

  /** `Color.Black.ToArgb()`: opaque black, 0xFF000000 as a signed 32-bit value. */
  const Black: int := -16777216

  function PixelToken(argb: int): string
  {
    if argb == Black then "0" else "1"
  }

  /** The pixel tokens of bitmap row `y`, `bmp[x, y]` being `GetPixel(x, y).ToArgb()`. */
  function BitmapTokens(bmp: array2<int>, y: int): (ts: seq<string>)
    reads bmp
    requires 0 <= y < bmp.Length1
    ensures |ts| == bmp.Length0
  {
    seq(bmp.Length0, x reads bmp requires 0 <= x < bmp.Length0 => PixelToken(bmp[x, y]))
  }

  /** The lines `SaveBitmapAsPGM` writes: `P2`, width, height, maxval 1, then one line per row. */
  function BitmapPgm(bmp: array2<int>): (text: seq<string>)
    reads bmp
    ensures |text| == 4 + bmp.Length1
  {
    ["P2", IntText(bmp.Length0), IntText(bmp.Length1), "1"]
      + seq(bmp.Length1, y reads bmp requires 0 <= y < bmp.Length1 => Joined(BitmapTokens(bmp, y)))
  }

  method SaveBitmapAsPGM(bmp: array2<int>) returns (text: seq<string>)
    ensures text == BitmapPgm(bmp)
  {
    text := ["P2", IntText(bmp.Length0), IntText(bmp.Length1), "1"];
    var y := 0;
    while y < bmp.Length1
      invariant 0 <= y <= bmp.Length1 && |text| == 4 + y
      invariant text[..4] == ["P2", IntText(bmp.Length0), IntText(bmp.Length1), "1"]
      invariant forall k :: 0 <= k < y ==> text[4 + k] == Joined(BitmapTokens(bmp, k))
    {
      var row := WriteRow(BitmapTokens(bmp, y));
      text := text + [row];
      y := y + 1;
    }
  }

  /** Each row of the bitmap file reads back as one token per pixel: `0` exactly for black pixels. */
  lemma BitmapRowMeaning(bmp: array2<int>, y: int)
    requires 0 <= y < bmp.Length1 && bmp.Length0 >= 1
    ensures var row := Config.Split(BitmapPgm(bmp)[4 + y], ' ');
      |row| == bmp.Length0 && forall x :: 0 <= x < bmp.Length0 ==> (row[x] == "0" <==> bmp[x, y] == Black) && row[x] in {"0", "1"}
  {
    JoinedReadsBack(BitmapTokens(bmp, y));
  }

  /** A running fold over the first `x` entries of row `y`, as the `Save*` loops compute `max` and `min`. */
  function RowFold<T>(m: array2<T>, y: int, x: int, acc: real, f: (real, T) -> real): real
    reads m
    requires 0 <= y < m.Length1 && 0 <= x <= m.Length0
    decreases x
  {
    if x == 0 then acc else f(RowFold(m, y, x - 1, acc, f), m[x - 1, y])
  }

  /** The fold over rows `0 .. y - 1`, each from `x = 0` to `wid`. */
  function MatrixFold<T>(m: array2<T>, wid: int, y: int, init: real, f: (real, T) -> real): real
    reads m
    requires 0 <= wid <= m.Length0 && 0 <= y <= m.Length1
    decreases y
  {
    if y == 0 then init else RowFold(m, y - 1, wid, MatrixFold(m, wid, y - 1, init, f), f)
  }

  /** Both nested loops of a running `max` or `min`. */
  method FoldMatrix<T>(m: array2<T>, wid: int, hei: int, init: real, f: (real, T) -> real) returns (acc: real)
    requires 0 <= wid <= m.Length0 && 0 <= hei <= m.Length1
    ensures acc == MatrixFold(m, wid, hei, init, f)
  {
    acc := init;
    var y := 0;
    while y < hei
      invariant 0 <= y <= hei && acc == MatrixFold(m, wid, y, init, f)
    {
      var x := 0;
      while x < wid
        invariant 0 <= x <= wid && acc == RowFold(m, y, x, MatrixFold(m, wid, y, init, f), f)
      {
        acc := f(acc, m[x, y]);
        x := x + 1;
      }
      y := y + 1;
    }
  }

  /** `if (v > max) max = v` for a `float` matrix. */
  function MaxStep(acc: real, v: real): real
  {
    MaxReal(acc, v)
  }

  /** `if (v > max) max = v` for an `int` matrix read into a `float`. */
  function MaxIntStep(acc: real, v: int): real
  {
    MaxReal(acc, v as real)
  }

  /** `if (v < min) min = v` for an `int` matrix read into a `float`. */
  function MinIntStep(acc: real, v: int): real
  {
    MinReal(acc, v as real)
  }

  lemma {:induction false} RowMaxBounds(m: array2<real>, y: int, x: int, acc: real)
    requires 0 <= y < m.Length1 && 0 <= x <= m.Length0
    ensures var r := RowFold(m, y, x, acc, MaxStep);
      acc <= r && (forall i :: 0 <= i < x ==> m[i, y] <= r) && (r == acc || exists i :: 0 <= i < x && m[i, y] == r)
    decreases x
  {
    if x > 0 {
      RowMaxBounds(m, y, x - 1, acc);
    }
  }

  /** The `max` of `SaveMatrix(float[,])` is the largest entry (or `float.MinValue` if every entry is smaller). */
  lemma {:induction false} MatrixMaxBounds(m: array2<real>, wid: int, y: int, init: real)
    requires 0 <= wid <= m.Length0 && 0 <= y <= m.Length1
    ensures var r := MatrixFold(m, wid, y, init, MaxStep);
      init <= r
      && (forall i, j :: 0 <= i < wid && 0 <= j < y ==> m[i, j] <= r)
      && (r == init || exists i, j :: 0 <= i < wid && 0 <= j < y && m[i, j] == r)
    decreases y
  {
    if y > 0 {
      var below := MatrixFold(m, wid, y - 1, init, MaxStep);
      MatrixMaxBounds(m, wid, y - 1, init);
      RowMaxBounds(m, y - 1, wid, below);
    }
  }

  lemma {:induction false} RowIntBounds(m: array2<int>, y: int, x: int, lo: real, hi: real)
    requires 0 <= y < m.Length1 && 0 <= x <= m.Length0
    ensures var mx := RowFold(m, y, x, hi, MaxIntStep);
      var mn := RowFold(m, y, x, lo, MinIntStep);
      hi <= mx && mn <= lo && forall i :: 0 <= i < x ==> mn <= m[i, y] as real <= mx
    decreases x
  {
    if x > 0 {
      RowIntBounds(m, y, x - 1, lo, hi);
    }
  }

  /** The `min` and `max` of `SaveMatrix(int[,])` bound every entry. */
  lemma {:induction false} MatrixIntBounds(m: array2<int>, wid: int, y: int)
    requires 0 <= wid <= m.Length0 && 0 <= y <= m.Length1
    ensures var mx := MatrixFold(m, wid, y, IntMin as real, MaxIntStep);
      var mn := MatrixFold(m, wid, y, IntMax as real, MinIntStep);
      forall i, j :: 0 <= i < wid && 0 <= j < y ==> mn <= m[i, j] as real <= mx
    decreases y
  {
    if y > 0 {
      MatrixIntBounds(m, wid, y - 1);
      RowIntBounds(m, y - 1, wid, MatrixFold(m, wid, y - 1, IntMax as real, MinIntStep),
        MatrixFold(m, wid, y - 1, IntMin as real, MaxIntStep));
    }
  }

  /** `float.MinValue`. */
  const FloatMin: real := -340282346638528859811704183484516925440.0

  const IntMin: int := -2147483648
  const IntMax: int := 2147483647

  /** Row `y` of `SaveMatrix(float[,])`: the first `wid` entries, each as `show` writes it. */
  function RealRowText(m: array2<real>, wid: int, y: int, show: real -> string): string
    reads m
    requires 0 <= wid <= m.Length0 && 0 <= y < m.Length1
  {
    Joined(seq(wid, x reads m requires 0 <= x < wid => show(m[x, y])))
  }

  /** The lines `SaveMatrix(float[,])` writes; `show` is `float.ToString`. */
  function RealMatrixPgm(m: array2<real>, wid: int, hei: int, show: real -> string): seq<string>
    reads m
    requires 0 <= wid <= m.Length0 && 0 <= hei <= m.Length1
  {
    ["P2", IntText(wid), IntText(hei), show(MatrixFold(m, wid, hei, FloatMin, MaxStep))]
      + seq(hei, y reads m requires 0 <= y < hei => RealRowText(m, wid, y, show))
  }

  method SaveRealMatrix(m: array2<real>, wid: int, hei: int, show: real -> string) returns (text: seq<string>)
    requires 0 <= wid <= m.Length0 && 0 <= hei <= m.Length1
    ensures text == RealMatrixPgm(m, wid, hei, show)
  {
    var max := FoldMatrix(m, wid, hei, FloatMin, MaxStep);
    text := ["P2", IntText(wid), IntText(hei), show(max)];
    var y := 0;
    while y < hei
      invariant 0 <= y <= hei && |text| == 4 + y
      invariant text[..4] == ["P2", IntText(wid), IntText(hei), show(max)]
      invariant forall k :: 0 <= k < y ==> text[4 + k] == RealRowText(m, wid, k, show)
    {
      var row := WriteRow(seq(wid, x reads m requires 0 <= x < wid => show(m[x, y])));
      text := text + [row];
      y := y + 1;
    }
  }

  /** A height as a grey level: `(int)((v - min) / l * 255)`. */
  function Grey(v: int, lo: real, hi: real): (level: int)
    requires lo < hi
    ensures var scaled := (v as real - lo) / (hi - lo) * 255.0;
      && (0.0 <= scaled ==> level as real <= scaled < level as real + 1.0)
      && (scaled < 0.0 ==> level as real - 1.0 < scaled <= level as real)
  {
    Trunc((v as real - lo) / (hi - lo) * 255.0)
  }

  lemma FractionBounds(a: real, b: real, l: real)
    requires 0.0 <= a <= b <= l && l > 0.0
    ensures 0.0 <= a / l <= b / l <= 1.0
    ensures a == 0.0 ==> a / l == 0.0
    ensures b == l ==> b / l == 1.0
  {
    var x, y := a / l, b / l;
    assert x * l == a && y * l == b;
    RealMulSign(x, l);
    RealMulSign(x - y, l);
    RealMulSign(y - 1.0, l);
    assert (x - y) * l == a - b && (y - 1.0) * l == b - l;
  }

  /** Heights between the extremes become grey levels 0..255, the lowest 0 and the highest 255, in order. */
  lemma GreyRange(v: int, w: int, lo: real, hi: real)
    requires lo < hi && lo <= v as real <= w as real <= hi
    ensures 0 <= Grey(v, lo, hi) <= Grey(w, lo, hi) <= 255
    ensures v as real == lo ==> Grey(v, lo, hi) == 0
    ensures w as real == hi ==> Grey(w, lo, hi) == 255
  {
    FractionBounds(v as real - lo, w as real - lo, hi - lo);
  }

  /** An `int` matrix is written only when it is empty or not constant; a constant one divides 0 by 0. */
  predicate Varies(m: array2<int>, wid: int, hei: int)
    reads m
    requires 0 <= wid <= m.Length0 && 0 <= hei <= m.Length1
  {
    wid == 0 || hei == 0 || exists i, j :: 0 <= i < wid && 0 <= j < hei && m[i, j] != m[0, 0]
  }

  /** Row `y` of `SaveMatrix(int[,])`: the first `wid` heights as grey levels between `lo` and `hi`. */
  function GreyRowText(m: array2<int>, wid: int, y: int, lo: real, hi: real): string
    reads m
    requires 0 <= wid <= m.Length0 && 0 <= y < m.Length1 && lo < hi
  {
    Joined(seq(wid, x reads m requires 0 <= x < wid => IntText(Grey(m[x, y], lo, hi))))
  }

  /** The lines `SaveMatrix(int[,])` writes: maxval 255 and each height as its grey level. */
  function IntMatrixPgm(m: array2<int>, wid: int, hei: int): seq<string>
    reads m
    requires 0 <= wid <= m.Length0 && 0 <= hei <= m.Length1 && Varies(m, wid, hei)
  {
    var hi := MatrixFold(m, wid, hei, IntMin as real, MaxIntStep);
    var lo := MatrixFold(m, wid, hei, IntMax as real, MinIntStep);
    ["P2", IntText(wid), IntText(hei), "255"]
      + if wid == 0 || hei == 0 then seq(hei, y => "")
        else
          MatrixIntBounds(m, wid, hei);
          assert lo <= m[0, 0] as real <= hi;
          var i, j :| 0 <= i < wid && 0 <= j < hei && m[i, j] != m[0, 0];
          assert lo <= m[i, j] as real <= hi;
          seq(hei, y reads m requires 0 <= y < hei => GreyRowText(m, wid, y, lo, hi))
  }

  method SaveIntMatrix(m: array2<int>, wid: int, hei: int) returns (text: seq<string>)
    requires 0 <= wid <= m.Length0 && 0 <= hei <= m.Length1 && Varies(m, wid, hei)
    ensures text == IntMatrixPgm(m, wid, hei)
  {
    var max := FoldMatrix(m, wid, hei, IntMin as real, MaxIntStep);
    var min := FoldMatrix(m, wid, hei, IntMax as real, MinIntStep);
    text := ["P2", IntText(wid), IntText(hei), "255"];
    if wid == 0 || hei == 0 {
      var y := 0;
      while y < hei
        invariant 0 <= y <= hei && text == ["P2", IntText(wid), IntText(hei), "255"] + seq(y, k => "")
      {
        assert seq(y + 1, k => "") == seq(y, k => "") + [""];
        text := text + [""];
        y := y + 1;
      }
      return;
    }
    MatrixIntBounds(m, wid, hei);
    assert min < max by {
      var i, j :| 0 <= i < wid && 0 <= j < hei && m[i, j] != m[0, 0];
      assert min <= m[i, j] as real <= max && min <= m[0, 0] as real <= max;
    }
    var rows := GreyRows(m, wid, hei, min, max);
    assert rows == seq(hei, y reads m requires 0 <= y < hei => GreyRowText(m, wid, y, min, max));
    text := text + rows;
  }

  /** The height lines of `SaveMatrix(int[,])`, one per `y`, each height scaled to a grey level between `lo` and `hi`. */
  method GreyRows(m: array2<int>, wid: int, hei: int, lo: real, hi: real) returns (rows: seq<string>)
    requires 0 <= wid <= m.Length0 && 0 <= hei <= m.Length1 && lo < hi
    ensures |rows| == hei && forall k :: 0 <= k < hei ==> rows[k] == GreyRowText(m, wid, k, lo, hi)
  {
    rows := [];
    var y := 0;
    while y < hei
      invariant 0 <= y <= hei && |rows| == y
      invariant forall k :: 0 <= k < y ==> rows[k] == GreyRowText(m, wid, k, lo, hi)
    {
      var row := WriteRow(seq(wid, x reads m requires 0 <= x < wid => IntText(Grey(m[x, y], lo, hi))));
      rows := rows + [row];
      y := y + 1;
    }
  }

  /** Every written height is a grey level in 0..255, and the lowest height of the matrix is written as 0. */
  lemma HeightsAsGrey(m: array2<int>, wid: int, hei: int, x: int, y: int)
    requires 0 < wid <= m.Length0 && 0 < hei <= m.Length1 && Varies(m, wid, hei)
    requires 0 <= x < wid && 0 <= y < hei
    ensures var hi := MatrixFold(m, wid, hei, IntMin as real, MaxIntStep);
      var lo := MatrixFold(m, wid, hei, IntMax as real, MinIntStep);
      lo < hi && 0 <= Grey(m[x, y], lo, hi) <= 255
      && (m[x, y] as real == lo ==> Grey(m[x, y], lo, hi) == 0)
      && (m[x, y] as real == hi ==> Grey(m[x, y], lo, hi) == 255)
  {
    var hi := MatrixFold(m, wid, hei, IntMin as real, MaxIntStep);
    var lo := MatrixFold(m, wid, hei, IntMax as real, MinIntStep);
    MatrixIntBounds(m, wid, hei);
    var i, j :| 0 <= i < wid && 0 <= j < hei && m[i, j] != m[0, 0];
    assert lo <= m[i, j] as real <= hi && lo <= m[0, 0] as real <= hi;
    GreyRange(m[x, y], m[x, y], lo, hi);
  }

  // ---------------------------------------------------------------------------
  // Main

  /** A file `Main` writes: the height image, or one OSM layer (as its drawing calls) under its name. */
  datatype Saved = Heights(text: seq<string>) | Layer(name: string, paints: seq<OsmLayers.Paint>)

  /** Layer `i` of `Main`'s three, by its file name: 0 roads, 1 rivers, 2 buildings. */
  function LayerName(i: nat): string
  {
    if i == 0 then "roads" else if i == 1 then "rivers" else "buildings"
  }

  /** The drawing of layer `i`, `None` where parsing it throws. */
  function LayerOf(i: nat, g: OsmLayers.Grid, nums: OsmReader.Numbers, osm: seq<OsmReader.Event>): Option<seq<OsmLayers.Paint>>
    requires g.cellSize != 0.0
  {
    if i == 0 then OsmLayers.WayLayer(OsmLayers.Roads, g, nums, osm)
    else if i == 1 then OsmLayers.RiverLayer(g, nums, osm)
    else OsmLayers.WayLayer(OsmLayers.Buildings, g, nums, osm)
  }

  /**
   * The layer files `Main` leaves behind, and whether it got through all three. Each layer is
   * saved before the next one is parsed, so when one throws the earlier ones are already written.
   */
  function LayerFiles(g: OsmLayers.Grid, nums: OsmReader.Numbers, osm: seq<OsmReader.Event>): (files: (seq<Saved>, bool))
    requires g.cellSize != 0.0
    ensures |files.0| <= 3
    ensures files.1 <==> forall i :: 0 <= i < 3 ==> LayerOf(i, g, nums, osm).Some?
    ensures files.1 ==> |files.0| == 3
    ensures !files.1 ==> LayerOf(|files.0|, g, nums, osm).None?
    ensures forall i :: 0 <= i < |files.0| ==>
      LayerOf(i, g, nums, osm).Some? && files.0[i] == Layer(LayerName(i), LayerOf(i, g, nums, osm).value)
  {
    var roads := OsmLayers.WayLayer(OsmLayers.Roads, g, nums, osm);
    var rivers := OsmLayers.RiverLayer(g, nums, osm);
    var buildings := OsmLayers.WayLayer(OsmLayers.Buildings, g, nums, osm);
    assert LayerOf(0, g, nums, osm) == roads && LayerOf(1, g, nums, osm) == rivers;
    assert LayerOf(2, g, nums, osm) == buildings;
    if roads.None? then ([], false)
    else if rivers.None? then ([Layer("roads", roads.value)], false)
    else if buildings.None? then ([Layer("roads", roads.value), Layer("rivers", rivers.value)], false)
    else ([Layer("roads", roads.value), Layer("rivers", rivers.value), Layer("buildings", buildings.value)], true)
  }

  /** The map window of the OSM layers: the grid's corner, cell size and size in cells. */
  function GridOf(h: Header): OsmLayers.Grid
  {
    OsmLayers.Grid(h.xll, h.yll, h.cellSize, h.cols, h.rows)
  }

  /**
   * `Main`: the files it has written when it returns or throws, and whether it returned.
   * Heights come from the grid named by the first argument and are saved first; only if a
   * second argument names an OSM file do the roads, rivers and buildings layers follow, in
   * that order, each saved before the next is parsed. `heights` is the grid as loaded. The
   * model also stops, after the files saved so far, where the source would write cast NaNs
   * (a constant grid) or divide by a zero cell size.
   */
  method Convert(args: seq<string>, p: Parsers, grid: seq<string>, nums: OsmReader.Numbers, osm: seq<OsmReader.Event>)
    returns (saved: seq<Saved>, ok: bool, ghost heights: array2<int>)
    ensures |args| == 0 || !Loads(p, grid, 1) ==> saved == [] && !ok
    ensures |args| >= 1 && Loads(p, grid, 1) ==>
      var h := ParseHeader(p, grid).value;
      var geo := GeorefOf(h, 1);
      && heights.Length0 == geo.width && heights.Length1 == geo.height
      && (forall c, r :: 0 <= c < geo.width && 0 <= r < geo.height ==>
            heights[c, r] == HeightAt(p, grid, h, 1, c, r).value)
      && (!Varies(heights, geo.width, geo.height) ==> saved == [] && !ok)
      && (Varies(heights, geo.width, geo.height) ==>
            && |saved| >= 1 && saved[0] == Heights(IntMatrixPgm(heights, geo.width, geo.height))
            && (|args| == 1 ==> |saved| == 1 && ok)
            && (|args| >= 2 && GridOf(h).cellSize == 0.0 ==> |saved| == 1 && !ok)
            && (|args| >= 2 && GridOf(h).cellSize != 0.0 ==>
                  saved[1..] == LayerFiles(GridOf(h), nums, osm).0 && ok == LayerFiles(GridOf(h), nums, osm).1))
  {
    heights := new int[0, 0];
    if |args| == 0 {
      // `args[0]` throws
      return [], false, heights;
    }
    var hs, geo, loaded := ParseHeights(p, grid, 1);
    heights := hs;
    if !loaded || !Varies(hs, geo.width, geo.height) {
      return [], false, heights;
    }
    var text := SaveIntMatrix(hs, geo.width, geo.height);
    saved := [Heights(text)];
    if |args| <= 1 {
      return saved, true, heights;
    }
    var g := OsmLayers.Grid(geo.xll, geo.yll, geo.cellSize, geo.width, geo.height);
    assert g == GridOf(ParseHeader(p, grid).value);
    if g.cellSize == 0.0 {
      return saved, false, heights;
    }
    var layers;
    layers, ok := SaveLayers(g, nums, osm);
    saved := saved + layers;
  }

  /** The OSM half of `Main`: parse and save roads, rivers and buildings, stopping at the first that throws. */
  method SaveLayers(g: OsmLayers.Grid, nums: OsmReader.Numbers, osm: seq<OsmReader.Event>) returns (saved: seq<Saved>, ok: bool)
    requires g.cellSize != 0.0
    ensures (saved, ok) == LayerFiles(g, nums, osm)
  {
    saved, ok := [], false;
    var roads := OsmLayers.ParseRoads(g, nums, osm);
    if roads.None? {
      return;
    }
    saved := [Layer("roads", roads.value)];
    var rivers := OsmLayers.ParseRivers(g, nums, osm);
    if rivers.None? {
      return;
    }
    saved := [Layer("roads", roads.value), Layer("rivers", rivers.value)];
    var buildings := OsmLayers.ParseBuildings(g, nums, osm);
    if buildings.None? {
      return;
    }
    saved := [Layer("roads", roads.value), Layer("rivers", rivers.value), Layer("buildings", buildings.value)];
    ok := true;
  }
}
