# Terrain-map generator core, modelled in Dafny

The repository generates terrain maps (heights, roads, rivers, buildings) with recurrent
neural networks, coarse to fine (64 -> 16 -> 4 -> 1 metres per cell), and converts real
map data into the training rasters. This project models the parts of it that are not the
networks themselves:

- the unary codecs of `basic/utilities.py` (`unary_encoding`, the logarithmic and linear
  codes, their reversed variants, array versions, decoders and `relativization`), over
  exact reals with `log2`/`2**x` passed in as a `Base2` value whose laws are stated as a
  predicate (`Numeric`, `UnaryCodec`);
- the matrix helpers of both `matrix_manipulation.py` copies: `rescale`, `rescale2`,
  `derivatives`, `cutout` with Python slice semantics, and `scale_down` (`Matrices`);
- `get_window` and both `parse` versions of the two `parsing.py` copies (`Windows`);
- `generate.py`: the configuration file reader (`Config`), the raster scan shared by
  `generate` and `generate_other` with the raster as an `array2<real>` written in place
  (`Scanning`, `Generation`), and the context builders of every stage (`Contexts`). The
  trained network is a function parameter `predict`.
- the C# converter: `OSMParser`'s pull-parsing of nodes, ways and relations over a
  `XmlReader` class holding an event sequence and a cursor (`OsmReader`); the layer
  selection and the paint operations each layer issues, with points mapped to cells by
  `ToDescrete` (`OsmLayers`); and `Program`'s ESRI ASCII grid reader with integer
  upscaling, the PGM writers and `Main` (`Converter`).

The exceptions the source raises on input it reads (a missing attribute, a failed `Parse`,
a duplicate dictionary key, a missing data line or field, a missing configuration
separator) are `Option`/`ok` results. A precondition stands only for a requirement the
code documents or every caller establishes: the divisible shape `scale_down`'s docstring
demands, a window inside the padded raster, a non-empty window to average. It also marks
the two places where the model stops instead of following the source into undefined
arithmetic: a zero cell size and a constant height grid. Each is listed under "Left out" below. A method that loops in the
source is a `method` with a loop proved against a specification function; the properties
the source relies on are lemmas about those functions.

Where the code departs from the design it documents, the model follows the code:

- `height_context_16x` leaves the window itself un-relativized. The model keeps that
  literal layout as `Contexts.HeightContext16AsWritten` and uses the corrected one (see
  Findings).
- The indexed `parse` of `basic/parsing.py` allocates `row_range * col_range` token slots,
  a positive count when both ranges are negative. The model keeps that count as
  `Windows.TokenCountAsWritten` and builds the tokens over the corrected count (see Findings).
- `ParseWays` sets `Area` exactly when the first and last node references are equal, and
  throws on a way without `nd` children.
- `ParseRivers` keeps the last way for a repeated id, whereas `ParseAllWays` throws.

## Model

| member | source | states |
|---|---|---|
| UnaryCodec.UnaryCode | nn_generator/libraries/basic/utilities.py:16-25 | `unary_encoding` with `int()` truncation and Python's negative indexing: it fails (IndexError) exactly when `num <= -n - 1`, else yields `n` slots |
| UnaryCodec.UnaryCodeReversed | nn_generator/libraries/basic/utilities.py:27-35 | the reversed code is defined exactly when the plain one is, and each slot is `1 -` the plain slot |
| UnaryCodec.UnaryCodeShape | nn_generator/libraries/basic/utilities.py:16-25 | for `num >= 0`: `min(floor, n)` ones, then the fractional part, then zeros |
| UnaryCodec.UnaryCodeSum | nn_generator/libraries/basic/utilities.py:16-25 | for `num >= 0` every slot is in [0, 1] and the slots sum to `min(num, n)` |
| UnaryCodec.UnaryCodeExample | nn_generator/libraries/basic/utilities.py:16-35 | 2.5 over 5 slots is `[1, 1, 0.5, 0, 0]`, reversed `[0, 0, 0.5, 1, 1]` |
| UnaryCodec.LogCodeDefined | nn_generator/libraries/basic/utilities.py:37-69 | both log codes are defined exactly when `abs(num) < 2**(n+1)` |
| UnaryCodec.LogCodeOfZero | nn_generator/libraries/basic/utilities.py:58-62 | zero (exponent `n`) codes as all ones, reversed as all zeros |
| UnaryCodec.LogCodeOfNegative | nn_generator/libraries/basic/utilities.py:64-68 | a negative number codes as the negated code of its magnitude, for both variants |
| UnaryCodec.LinearDecode | nn_generator/libraries/basic/utilities.py:115-117 | `unary_linear_decoding` is never negative |
| UnaryCodec.LogCodeEntries | nn_generator/libraries/basic/utilities.py:58-69 | the code's magnitudes sum to `min(-log2 abs(num), n)`, its signed sum carries `num`'s sign |
| UnaryCodec.LogRoundTrip | nn_generator/libraries/basic/utilities.py:108-113 | `unary_log_decoding(unary_log_encoding(v, n)) == v` for `2**-n <= abs(v) < 1` |
| UnaryCodec.LogRoundTripSaturated | nn_generator/libraries/basic/utilities.py:108-113 | below `2**-n` the round trip saturates to `±2**-n` |
| UnaryCodec.LogRoundTripUnit | nn_generator/libraries/basic/utilities.py:108-113 | `±1` decodes to 0: the code's sum is 0, so `np.sign` is 0 |
| UnaryCodec.LinearRoundTrip | nn_generator/libraries/basic/utilities.py:115-117 | `unary_linear_decoding(unary_linear_encoding(v, n)) == abs(v)` for `-1 <= v <= 1` |
| UnaryCodec.LinearCodeSum | nn_generator/libraries/basic/utilities.py:71-77 | the linear code sums to `±abs(num * n)` and decodes to that over `n` |
| UnaryCodec.ReversedDecodeOfZeros | nn_generator/libraries/basic/utilities.py:96-105 | an all-zero reversed code decodes to 0 |
| UnaryCodec.ReversedDecodeTelescopes | nn_generator/libraries/basic/utilities.py:96-105 | `f` zeros then ones decode to `2**-f - 2**-n`: the per-slot terms telescope |
| UnaryCodec.UnaryCodeReversedOfWhole | nn_generator/libraries/basic/utilities.py:27-35 | a whole `f < n` codes reversed as `f` zeros then ones |
| UnaryCodec.ReversedRoundTripOfPowerOfTwo | nn_generator/libraries/basic/utilities.py:37-48 | `2**-f` codes reversed as `f` zeros then ones and decodes back to `2**-f - 2**-n` |
| UnaryCodec.EncodeAllLength | nn_generator/libraries/basic/utilities.py:79-85 | an array code is defined iff every element's is, and is `len * n` long |
| UnaryCodec.EncodeAllAppend | nn_generator/libraries/basic/utilities.py:50-56 | coding a concatenation is the concatenation of the codes (`ret.extend`) |
| UnaryCodec.DecodeChunksOfEncodeAll | nn_generator/libraries/basic/utilities.py:119-126 | chunk-wise decoding inverts chunk-wise coding whenever each element round-trips |
| UnaryCodec.LogArrayRoundTrip | nn_generator/libraries/basic/utilities.py:79-85 | `unary_log_decoding_array(unary_log_encoding_array(vs, n), n) == vs` for `2**-n <= abs(v) < 1` |
| UnaryCodec.UnaryEncoding | nn_generator/libraries/basic/utilities.py:17-24 | the slot-filling loop computes `UnaryCode` |
| UnaryCodec.UnaryEncodingReversed | nn_generator/libraries/basic/utilities.py:28-34 | the loop computes `UnaryCodeReversed` |
| UnaryCodec.UnaryLogEncoding | nn_generator/libraries/basic/utilities.py:58-69 | computes `LogCode` (exponent, unary code, sign) |
| UnaryCodec.UnaryLogEncodingReversed | nn_generator/libraries/basic/utilities.py:37-48 | computes `LogCodeReversed` |
| UnaryCodec.UnaryLinearEncoding | nn_generator/libraries/basic/utilities.py:71-77 | computes `LinearCode` |
| UnaryCodec.UnaryLogEncodingArray | nn_generator/libraries/basic/utilities.py:80-84 | the `extend` loop computes `LogCodeArray`, failing if any element fails |
| UnaryCodec.UnaryLogEncodingArrayReversed | nn_generator/libraries/basic/utilities.py:51-55 | the loop computes `LogCodeArrayReversed` |
| UnaryCodec.UnaryLinearEncodingArray | nn_generator/libraries/basic/utilities.py:87-93 | the loop computes `LinearCodeArray`, which never fails |
| UnaryCodec.PrefixFailure | nn_generator/libraries/basic/utilities.py:82-83 | once a prefix of the array fails to code, the whole array fails |
| UnaryCodec.UnaryLogDecodingReversed | nn_generator/libraries/basic/utilities.py:96-105 | the summing loop computes `ReversedDecode` |
| UnaryCodec.UnaryLogDecodingArray | nn_generator/libraries/basic/utilities.py:119-126 | the chunking loop computes `DecodeChunks` (a short last chunk included) |
| UnaryCodec.DecodeChunksFrom | nn_generator/libraries/basic/utilities.py:121-124 | each step of the chunking loop decodes `arr[i : i + n]` and moves on by `n` |
| UnaryCodec.Relativization | nn_generator/libraries/basic/utilities.py:128-132 | returns the mean and subtracts it from the array in place |
| Numeric.MeanOfShiftByMean | nn_generator/libraries/basic/utilities.py:128-132 | after `relativization` the array's mean is 0 |
| Numeric.MeanShift | nn_generator/libraries/basic/utilities.py:130-131 | subtracting `d` from every element lowers the mean by `d` |
| Numeric.Trunc | nn_generator/libraries/basic/utilities.py:18 | `int()` truncates toward zero |
| Numeric.RoundHalfEven | nn_generator/libraries/generate.py:92-93 | `round()` is within 0.5 and breaks ties to even |
| Config.StripKeepsMiddle | nn_generator/libraries/generate.py:53 | `strip()` returns a slice that starts and ends on non-space, with only spaces cut on both sides |
| Config.Split | nn_generator/libraries/generate.py:53 | `split("=")` yields at least one piece, none containing `=` |
| Config.SplitJoin | nn_generator/libraries/generate.py:53 | joining the pieces of `split` with the separator restores the string |
| Config.JoinSplit | nn_generator/libraries/generate.py:53 | splitting a join of separator-free pieces gives the pieces back |
| Config.ConfigLineMeaning | nn_generator/libraries/generate.py:53-54 | a stripped line `key=value[=...]` maps `key` to `value` |
| Config.ConfigLineFails | nn_generator/libraries/generate.py:53-54 | a line fails (IndexError on `tokens[1]`) exactly when the stripped line has no `=` |
| Config.ConfigLine | nn_generator/libraries/generate.py:53-54 | a line yields `tokens[0]` as key and `tokens[1]` as value, neither containing `=`; `ConfigLineMeaning` and `ConfigLineFails` give which text they are and when the line fails |
| Config.ConfigOfDefined | nn_generator/libraries/generate.py:51-54 | the file loads iff every line does |
| Config.ConfigOfKeys | nn_generator/libraries/generate.py:51-54 | the loaded keys are exactly the lines' keys |
| Config.LaterLineWins | nn_generator/libraries/generate.py:54 | a later line overrides its key and leaves every other key unchanged |
| Config.ReadConfig | nn_generator/libraries/generate.py:50-54 | the reading loop computes `ConfigOf` |
| Config.PrefixFailure | nn_generator/libraries/generate.py:52-54 | a failing line aborts the whole load |
| Matrices.MatMin | nn_generator/libraries/basic/matrix_manipulation.py:5 | `np.min` is a lower bound attained by some entry |
| Matrices.MatMax | nn_generator/libraries/basic/matrix_manipulation.py:6 | `np.max` is an upper bound attained by some entry |
| Matrices.ConstantIffFlat | nn_generator/libraries/basic/matrix_manipulation.py:7-9 | `length == 0` exactly when the matrix is constant |
| Matrices.Rescale | nn_generator/libraries/basic/matrix_manipulation.py:3-12 | `rescale` keeps the shape |
| Matrices.NormalizeFacts | nn_generator/libraries/basic/matrix_manipulation.py:12 | `(x - lo) / len` maps `[lo, lo + len]` into `[0, 1]`, `lo` to 0, `lo + len` to 1 |
| Matrices.NormalizeMonotone | nn_generator/libraries/basic/matrix_manipulation.py:12 | the affine map keeps order |
| Matrices.RescaleOfConstant | nn_generator/libraries/basic/matrix_manipulation.py:9-10 | a constant matrix rescales to all zeros |
| Matrices.RescaleEntryRange | nn_generator/libraries/basic/matrix_manipulation.py:12 | for a non-constant matrix each entry lands in [0, 1], minima on 0, maxima on 1 |
| Matrices.RescaleZeroIffConstant | nn_generator/libraries/basic/matrix_manipulation.py:9-12 | the result is all zeros iff the input is constant |
| Matrices.RescaleRange | nn_generator/libraries/basic/matrix_manipulation.py:3-12 | the whole non-constant result lies in [0, 1] with minima on 0 and maxima on 1 |
| Matrices.RescaleMonotone | nn_generator/libraries/basic/matrix_manipulation.py:12 | `rescale` keeps the order of entries |
| Matrices.RescaleFixesUnitRange | nn_generator/libraries/basic/matrix_manipulation.py:3-12 | a matrix already spanning exactly [0, 1] is unchanged |
| Matrices.RescaleIdempotent | nn_generator/libraries/matrix_manipulation.py:3-11 | `rescale(rescale(m)) == rescale(m)` |
| Matrices.MaxMagnitudeIsMax | nn_generator/libraries/basic/matrix_manipulation.py:17-19 | `max(abs(max), abs(min))` bounds every `abs` entry and is attained |
| Matrices.Rescale2 | nn_generator/libraries/basic/matrix_manipulation.py:15-23 | `rescale2` keeps the shape |
| Matrices.Rescale2OfZero | nn_generator/libraries/basic/matrix_manipulation.py:20-21 | the scalar is 0 iff the matrix is all zeros, which is returned as is |
| Matrices.Rescale2Range | nn_generator/libraries/basic/matrix_manipulation.py:15-23 | entries land in [-1, 1] with their signs kept, and some entry reaches magnitude 1 |
| Matrices.Rescale2Bounded | nn_generator/libraries/basic/matrix_manipulation.py:19-23 | every rescaled entry has magnitude at most 1 |
| Matrices.Rescale2Unit | nn_generator/libraries/matrix_manipulation.py:16-21 | a non-zero matrix rescales to maximum magnitude exactly 1 |
| Matrices.Rescale2Idempotent | nn_generator/libraries/matrix_manipulation.py:14-21 | `rescale2(rescale2(m)) == rescale2(m)` |
| Matrices.Rescale2FixesUnitMagnitude | nn_generator/libraries/basic/matrix_manipulation.py:19-23 | a matrix of maximum magnitude 1 is unchanged |
| Matrices.RowDifferences | nn_generator/libraries/basic/matrix_manipulation.py:30-35 | `r_ders` has the input's shape |
| Matrices.ColDifferences | nn_generator/libraries/basic/matrix_manipulation.py:31-39 | `c_ders` has the input's shape |
| Matrices.RowDifferencesRecover | nn_generator/libraries/basic/matrix_manipulation.py:33-35 | each entry is the first row's entry plus the sum of the row differences above it |
| Matrices.ColDifferencesRecover | nn_generator/libraries/basic/matrix_manipulation.py:37-39 | each entry is the first column's entry plus the sum of the column differences before it |
| Matrices.DifferencesOfConstant | nn_generator/libraries/basic/matrix_manipulation.py:26-41 | a constant matrix has all-zero derivatives |
| Matrices.Derivatives | nn_generator/libraries/basic/matrix_manipulation.py:26-41 | `derivatives` returns exactly the row and column difference matrices |
| Matrices.FillRowDifferences | nn_generator/libraries/matrix_manipulation.py:30-32 | the first double loop fills `r_ders` with forward row differences, the last row staying 0 |
| Matrices.FillColDifferences | nn_generator/libraries/matrix_manipulation.py:34-36 | the second double loop fills `c_ders`, the last column staying 0 |
| Matrices.SliceBound | nn_generator/libraries/basic/matrix_manipulation.py:45 | a slice bound is clamped into the sequence and unchanged when already inside |
| Matrices.Slice | nn_generator/libraries/basic/matrix_manipulation.py:45 | a Python slice with in-range bounds is the plain subsequence |
| Matrices.CutoutShape | nn_generator/libraries/basic/matrix_manipulation.py:44-45 | `cutout` is a matrix whose size is that of the two clamped slices |
| Matrices.CutoutInBounds | nn_generator/libraries/matrix_manipulation.py:41-42 | an in-bounds `cutout` is `r x c` with entry `(i, j)` equal to `m[row + i][col + j]` |
| Matrices.ScaleDown | nn_generator/libraries/basic/matrix_manipulation.py:47-56 | `scale_down` has shape `rows / reduction x cols / reduction` |
| Matrices.ScaleDownByOne | nn_generator/libraries/basic/matrix_manipulation.py:47-56 | reduction 1 returns the matrix unchanged |
| Matrices.BlockBetween | nn_generator/libraries/basic/matrix_manipulation.py:54 | each block mean lies between bounds holding for all entries |
| Matrices.ScaleDownWithinRange | nn_generator/libraries/matrix_manipulation.py:44-52 | every scaled-down entry lies between the input's min and max |
| Matrices.ScaleDownConstant | nn_generator/libraries/basic/matrix_manipulation.py:54 | a constant matrix scales down to the same constant |
| Windows.GetWindow | nn_generator/libraries/basic/parsing.py:6-17 | `get_window` is a `cut x cut` matrix (same code as nn_generator/libraries/parsing.py:5-14) |
| Windows.WindowAtReductionOne | nn_generator/libraries/parsing.py:5-14 | at reduction 1 the window is the block whose top-left is `(row - 2 - cut // 2, col - cut // 2)` |
| Windows.RecurrentLayout | nn_generator/libraries/generate.py:67 | the 25-entry window has the current cell at index 22, and its first 22 entries are cells scanned earlier |
| Windows.RecurrentCells | nn_generator/libraries/generate.py:67 | the same layout for any 5x5 matrix equal to that block |
| Windows.RecurrentCell | nn_generator/libraries/generate.py:67 | the same for one index `k < 22` |
| Windows.WindowFits | nn_generator/libraries/basic/parsing.py:26-32 | every cell `parse` visits has its window inside the image for reductions 1..64 |
| Windows.IndexMapBijective | nn_generator/libraries/basic/parsing.py:38-42 | `i -> (row_start + i // col_range, col_start + i % col_range)` is a bijection onto the interior |
| Windows.IndexToCell | nn_generator/libraries/basic/parsing.py:40-41 | an index maps to an interior cell whose index is `i` again |
| Windows.CellToIndex | nn_generator/libraries/basic/parsing.py:40-41 | an interior cell has an index that maps back to it |
| Windows.IndexMapOrdered | nn_generator/libraries/basic/parsing.py:40-41 | the index order is the row-major order of the nested loops |
| Windows.ParseFitsUpTo64 | nn_generator/libraries/basic/parsing.py:26-32 | the interior is far enough from the edges for reductions up to 64 |
| Windows.Token | nn_generator/libraries/basic/parsing.py:42 | a token is a flattened window of `cut * cut` values |
| Windows.TokenGrid | nn_generator/libraries/parsing.py:25-28 | the loop version's tokens form a `row_range x col_range` grid |
| Windows.IndexedTokens | nn_generator/libraries/basic/parsing.py:34-44 | the indexed version produces `TokenCount` tokens, the corrected count (see "Left out"), which is `row_range * col_range` whenever a range is non-negative |
| Windows.ParseVersionsAgree | nn_generator/libraries/basic/parsing.py:20-45 | the indexed `parse` writes the same token list as the nested-loop one in nn_generator/libraries/parsing.py:17-30 |
| Windows.TokenAgrees | nn_generator/libraries/basic/parsing.py:38-42 | token `i` of both versions is the same |
| Windows.ParseIndexed | nn_generator/libraries/basic/parsing.py:34-44 | the `apply_along_axis` pass fills the corrected number of slots with `IndexedTokens` |
| Windows.IndexedToken | nn_generator/libraries/basic/parsing.py:38-42 | `func(i)` computes token `i` |
| Windows.IndexedTokenAt | nn_generator/libraries/basic/parsing.py:39-42 | token `i` is the window around `(row_start + i // col_range, col_start + i % col_range)` |
| Windows.IndexedCell | nn_generator/libraries/basic/parsing.py:39-41 | the cell of a valid index is inside the ranges |
| Windows.ParseLoop | nn_generator/libraries/parsing.py:17-30 | the nested loops append exactly the flattened token grid |
| Windows.GridToken | nn_generator/libraries/parsing.py:27-28 | one inner iteration computes the grid's token |
| Windows.ParseRow | nn_generator/libraries/parsing.py:26-28 | one outer iteration appends that row of tokens |
| Windows.ParseTokenShape | nn_generator/libraries/parsing.py:25-28 | there are `row_range * col_range` tokens of `cut * cut` values each |
| Windows.TokenCountAsWrittenOnSmallImage | nn_generator/libraries/basic/parsing.py:29-34 | a 100x100 image gives both ranges negative, so `[None] * (row_range * col_range)` has 48840 slots while no interior cell exists |
| Windows.TokenCountsAgree | nn_generator/libraries/basic/parsing.py:29-34 | when either range is non-negative, the list length equals the number of interior cells |
| Scanning.CellInRegion | nn_generator/libraries/generate.py:64-65 | the `k`-th scanned cell lies in the region and has scan index `k` |
| Scanning.CellOfRegionIndex | nn_generator/libraries/generate.py:64-65 | every region cell is the cell of its scan index |
| Scanning.RegionIndexMonotone | nn_generator/libraries/generate.py:64-65 | a cell earlier in row-major order has a smaller scan index |
| Scanning.ScanOrder | nn_generator/libraries/generate.py:64-65 | cells are visited in row-major order |
| Scanning.ScanWindowInside | nn_generator/libraries/generate.py:64-67 | every visited cell's recurrent window is inside the padded raster |
| Scanning.Gather | nn_generator/libraries/generate.py:67 | the recurrent input has 22 values |
| Scanning.Put | nn_generator/libraries/generate.py:76 | `generated[r, c] = o` changes that cell and nothing else |
| Scanning.Step | nn_generator/libraries/generate.py:66-76 | one cell step keeps the raster's shape |
| Scanning.Run | nn_generator/libraries/generate.py:64-76 | the first `k` steps keep the raster's shape |
| Scanning.RunNext | nn_generator/libraries/generate.py:66-76 | step `k` applies the cell rule to the window of the raster as left by the earlier steps |
| Scanning.RowStart | nn_generator/libraries/generate.py:64 | the scan index of a row's first cell; the row past the end starts at the cell count |
| Scanning.RowEnd | nn_generator/libraries/generate.py:65 | a row covers `cols` consecutive scan indices |
| Scanning.RunFailureStays | nn_generator/libraries/generate.py:64-76 | once a step fails (the model or a code raises), the scan fails |
| Scanning.RunFrame | nn_generator/libraries/generate.py:64-76 | cells outside the region (the padding) are never written |
| Scanning.RunNotYetWritten | nn_generator/libraries/generate.py:64-76 | cells not reached yet keep their seed value |
| Scanning.RunWritesOnce | nn_generator/libraries/generate.py:66-76 | each visited cell ends with the value the rule produced when it was visited |
| Scanning.RecurrentCellsEarlier | nn_generator/libraries/generate.py:67 | the recurrent input reads only padding or cells already generated |
| Scanning.StepReadsAgreed | nn_generator/libraries/generate.py:67 | two rasters agreeing on the cells read give the same recurrent input |
| Scanning.PutExtendsAgreement | nn_generator/libraries/generate.py:76 | writing the same value keeps two rasters agreeing one cell further |
| Scanning.RunAgreement | nn_generator/libraries/generate.py:64-76 | two scans from seeds agreeing outside the region stay in step |
| Scanning.SeedIndependent | nn_generator/libraries/generate.py:81-94 | the result does not depend on the seed's values inside the region (the `cv2.resize` initial raster is overwritten before it is read) |
| Scanning.RunAgreementComplete | nn_generator/libraries/generate.py:64-76 | agreeing seeds give equal final rasters |
| Scanning.AgreeOutsideRegion | nn_generator/libraries/generate.py:64-65 | seeds equal outside the region agree before the first step |
| Scanning.AgreeEverywhere | nn_generator/libraries/generate.py:64-65 | agreement after the last step is equality |
| Scanning.ScanRaster | nn_generator/libraries/generate.py:64-76 | the double loop writes `Run`'s final raster in place, or stops where the rule fails |
| Scanning.ScanRow | nn_generator/libraries/generate.py:65-76 | one row of the loop advances the raster from the row's first scan index to the next row's |
| Scanning.ScanCell | nn_generator/libraries/generate.py:66-76 | one cell of the loop performs step `k` |
| Generation.Recurrent | nn_generator/libraries/generate.py:67 | `get_window(generated, r, c, 1, cut).flatten()[:-3]` has 22 values |
| Generation.RecurrentIsGather | nn_generator/libraries/generate.py:67 | it is the recurrent input the scan reads |
| Generation.RuleSteps | nn_generator/libraries/generate.py:66-75 | a cell is the decoded prediction on context plus encoded recurrent input, failing if any stage fails |
| Generation.RuleOf | nn_generator/libraries/generate.py:66-94 | a cell gets a value only where `get_context` succeeds for it and the 22 recurrent values were read |
| Generation.DecodedHeight | nn_generator/libraries/generate.py:74-75 | a height cell is the reversed-decoded output plus the recurrent mean |
| Generation.InputLength | nn_generator/libraries/generate.py:67-72 | the network input is the context followed by 184 (heights), 176 (encoded) or 22 (raw) values |
| Generation.HeightCellMeaning | nn_generator/libraries/generate.py:67-75 | the height input carries the relativized window (mean 0) and the linear code of the mean, which decodes to its magnitude |
| Generation.RoundedCell | nn_generator/libraries/generate.py:90-94 | with `_round` the cell is the half-even rounding of the decoded output, within 0.5 of it |
| Generation.RecurrentWindow | nn_generator/libraries/generate.py:67 | copies the 22 recurrent values into a fresh array |
| Generation.HeightCell | nn_generator/libraries/generate.py:66-76 | the body of `generate`'s loop computes the height rule |
| Generation.OtherCell | nn_generator/libraries/generate.py:83-94 | the body of `generate_other`'s loop computes its rule |
| Generation.Generate | nn_generator/libraries/generate.py:62-78 | `generate` writes the scan's result in place, or stops where a step fails |
| Generation.GenerateOther | nn_generator/libraries/generate.py:80-96 | the same for `generate_other`, with `encode` and `_round` |
| Generation.PaddedRasterFits | nn_generator/libraries/generate.py:45-48 | `padding == 162`, enough for every window with reduction up to 64 around every generated cell |
| Generation.GridCovers | nn_generator/libraries/generate.py:106-107 | `ceil(n / 16)` coarse cells cover the `n` input cells with less than one cell to spare, and two 4x refinements reach 16x |
| Generation.CoarseMap | nn_generator/libraries/generate.py:116-118 | `(row - padding) * 16 + padding` moves 16 fine cells per coarse cell and keeps the reduction-64 window inside the padded input |
| Contexts.LogPart | nn_generator/libraries/generate.py:158-162 | a log-coded window is defined iff every value codes, and is 8 slots per value |
| Contexts.LogPartAppend | nn_generator/libraries/generate.py:187-194 | coding the concatenated windows is the concatenation of their codes |
| Contexts.RelativePart | nn_generator/libraries/generate.py:225-227 | a relativized window is its centred values' codes followed by the linear code of its mean |
| Contexts.RelativeShiftInvariant | nn_generator/libraries/generate.py:225 | relativizing forgets a constant offset |
| Contexts.RelativePartShiftInvariant | nn_generator/libraries/generate.py:225-227 | the coded centred part does not depend on a constant offset of the heights |
| Contexts.HeightContext16AsWritten | nn_generator/libraries/generate.py:115-124 | as written, the raw window is log-coded, followed by the linear code of its mean |
| Contexts.HeightContext16 | nn_generator/libraries/generate.py:115-124 | the corrected 16x height context, relativized like every other height context, 8 slots per value plus 8 |
| Contexts.HeightContext16At | nn_generator/libraries/generate.py:115-124 | the context of a coarse cell is 208 values (25 coded heights and the mean) |
| Contexts.HeightContext16Differs | nn_generator/libraries/generate.py:120-122 | a flat window of ones yields slot 1.0 as written but 0.0 relativized |
| Contexts.HeightContext16ShiftInvariant | nn_generator/libraries/generate.py:115-124 | the corrected context does not depend on the terrain's absolute height, apart from the mean's code |
| Contexts.RoadContext16 | nn_generator/libraries/generate.py:147-164 | five log-coded windows, 8 slots per value |
| Contexts.RiverContext16 | nn_generator/libraries/generate.py:177-194 | the river context coded as one concatenation |
| Contexts.RiverContextIsRoadLayout | nn_generator/libraries/generate.py:177-194 | coding the concatenation equals the road context's per-window layout |
| Contexts.LevelPart | nn_generator/libraries/generate.py:225-235 | one level: relativized heights with the mean, then rivers, roads and buildings coded |
| Contexts.BuildingContext16 | nn_generator/libraries/generate.py:212-247 | the 16x building context is 1416 values for full 5x5 windows |
| Contexts.HeightContextFine | nn_generator/libraries/generate.py:292-301 | two relativized height windows with their means, 8 slots each |
| Contexts.HeightContextFineStartsLikeHeight16 | nn_generator/libraries/generate.py:478-487 | the fine height context begins with the corrected 16x context of its coarser window |
| Contexts.LayerContextFine | nn_generator/libraries/generate.py:318-341 | the 4x/1x road and river contexts code eight windows, 8 slots per value |
| Contexts.LayerContextFineLayout | nn_generator/libraries/generate.py:353-376 | window `i` occupies slots `200 i .. 200 i + 200` |
| Contexts.BuildingContextFine | nn_generator/libraries/generate.py:389-437 | the 4x/1x building context is 2224 values for full windows |
| OsmReader.XmlReader.constructor | OSM/OSM_Parser/OSM_Parser/OSMParser.cs:51 | a fresh reader is positioned before the first event |
| OsmReader.XmlReader.Read | OSM/OSM_Parser/OSM_Parser/OSMParser.cs:132 | `Read` advances the cursor and reports whether an event is current |
| OsmReader.NodesRun | OSM/OSM_Parser/OSM_Parser/OSMParser.cs:132-160 | the node loop from event `i` stops at or after `i` |
| OsmReader.NodesFrom | OSM/OSM_Parser/OSM_Parser/OSMParser.cs:118-162 | `ParseNodes` from the reader's position stops inside the document |
| OsmReader.ParseNodes | OSM/OSM_Parser/OSM_Parser/OSMParser.cs:118-162 | enumerating `ParseNodes` yields `NodesFrom`'s records and leaves the reader where it stopped |
| OsmReader.NodesPass | OSM/OSM_Parser/OSM_Parser/OSMParser.cs:132-160 | one iteration of the `while (reader.Read())` loop |
| OsmReader.NodeEvent | OSM/OSM_Parser/OSM_Parser/OSMParser.cs:136-159 | the loop body computes `NodeStep` |
| OsmReader.NodeYieldsOnce | OSM/OSM_Parser/OSM_Parser/OSMParser.cs:136-152 | an event yields at most one node: the current one at `</node>`, the new one at `<node/>` |
| OsmReader.NodeTagsSpan | OSM/OSM_Parser/OSM_Parser/OSMParser.cs:154-159 | the tags between a node's tags collect into its dictionary |
| OsmReader.NodeRecordSpan | OSM/OSM_Parser/OSM_Parser/OSMParser.cs:136-159 | `<node>` tags `</node>` yields one node with exactly those tags |
| OsmReader.NodesStopAtWay | OSM/OSM_Parser/OSM_Parser/OSMParser.cs:134 | a successful node pass stops at the end or at the first `way` element, passing no `way` element before |
| OsmReader.WaysRun | OSM/OSM_Parser/OSM_Parser/OSMParser.cs:175-199 | the way loop from event `i` stops at or after `i` |
| OsmReader.WaysFrom | OSM/OSM_Parser/OSM_Parser/OSMParser.cs:164-200 | `ParseWays` from the reader's position stops inside the document |
| OsmReader.ParseWays | OSM/OSM_Parser/OSM_Parser/OSMParser.cs:164-200 | enumerating `ParseWays` yields `WaysFrom`'s records |
| OsmReader.WaysPass | OSM/OSM_Parser/OSM_Parser/OSMParser.cs:175-199 | one iteration of the way loop |
| OsmReader.WayEvent | OSM/OSM_Parser/OSM_Parser/OSMParser.cs:179-198 | the loop body computes `WayStep` |
| OsmReader.WayBodySpan | OSM/OSM_Parser/OSM_Parser/OSMParser.cs:185-189 | the `nd` and `tag` children append to the way's node list and tags |
| OsmReader.WayRecordSpan | OSM/OSM_Parser/OSM_Parser/OSMParser.cs:179-198 | `<way>` children `</way>` yields one way, an area iff its first and last refs are equal; without refs it throws |
| OsmReader.CloseWay | OSM/OSM_Parser/OSM_Parser/OSMParser.cs:191-196 | `</way>` yields a record exactly when a way is open and has a node; the record keeps the id, refs and tags and is an area iff its first and last refs are equal |
| OsmReader.WaysAreClosedIff | OSM/OSM_Parser/OSM_Parser/OSMParser.cs:191-193 | every yielded way has a node and is an area exactly when it is closed |
| OsmReader.WaysStopAtRelation | OSM/OSM_Parser/OSM_Parser/OSMParser.cs:176-177 | a successful way pass stops at the end or at the first `relation` element |
| OsmReader.NodesHandOverToWays | OSM/OSM_Parser/OSM_Parser/OSMParser.cs:169-173 | the node pass stops on the `way` element that `ParseWays` opens before reading on |
| OsmReader.Classify | OSM/OSM_Parser/OSM_Parser/OSMParser.cs:229-239 | a member goes to nodes, inner ways, outer ways or relations by type and role, else is dropped |
| OsmReader.RelationsRun | OSM/OSM_Parser/OSM_Parser/OSMParser.cs:213-248 | the relation loop from event `i` stops at or after `i` |
| OsmReader.RelationsFrom | OSM/OSM_Parser/OSM_Parser/OSMParser.cs:202-249 | `ParseRelations` from the reader's position stops inside the document |
| OsmReader.ParseRelations | OSM/OSM_Parser/OSM_Parser/OSMParser.cs:202-249 | enumerating `ParseRelations` yields `RelationsFrom`'s records |
| OsmReader.RelationsPass | OSM/OSM_Parser/OSM_Parser/OSMParser.cs:213-248 | one iteration of the relation loop |
| OsmReader.RelationEvent | OSM/OSM_Parser/OSM_Parser/OSMParser.cs:214-247 | the loop body computes `RelStep` |
| OsmReader.RelationBodySpan | OSM/OSM_Parser/OSM_Parser/OSMParser.cs:220-240 | the `member` and `tag` children collect into the relation |
| OsmReader.RelationRecordSpan | OSM/OSM_Parser/OSM_Parser/OSMParser.cs:214-247 | `<relation>` children `</relation>` yields one relation with exactly those members and tags |
| OsmReader.RepeatedTagThrows | OSM/OSM_Parser/OSM_Parser/OSMParser.cs:158 | a repeated tag key throws in all three loops (`Dictionary.Add`, also lines 186 and 221) |
| OsmReader.AddTag | OSM/OSM_Parser/OSM_Parser/OSMParser.cs:154-158 | `Dictionary.Add(k, v)` succeeds exactly for a present key not yet in the dictionary, adds it with `v` (null when absent) and keeps every other entry |
| OsmReader.StrayTagDropped | OSM/OSM_Parser/OSM_Parser/OSMParser.cs:186 | a tag with no open element is ignored (`tags?.Add`, also lines 158 and 221) |
| OsmReader.TableMeaning | OSM/OSM_Parser/OSM_Parser/OSMParser.cs:251-258 | the dictionary exists iff the ids are distinct, and then maps each id to its value |
| OsmReader.AddAll | OSM/OSM_Parser/OSM_Parser/OSMParser.cs:255-256 | the `Add` loop computes `Table` |
| OsmReader.TableFailureStays | OSM/OSM_Parser/OSM_Parser/OSMParser.cs:264-265 | a duplicate id in a prefix makes the whole table fail |
| OsmReader.ParseAllNodes | OSM/OSM_Parser/OSM_Parser/OSMParser.cs:251-259 | the node dictionary of the node pass, or failure |
| OsmReader.ParseAllWays | OSM/OSM_Parser/OSM_Parser/OSMParser.cs:260-268 | the way dictionary of the way pass, or failure |
| OsmReader.RepeatedNodeIdThrows | OSM/OSM_Parser/OSM_Parser/OSMParser.cs:256 | a repeated node id throws |
| OsmLayers.Descrete | OSM/OSM_Parser/OSM_Parser/OSMParser.cs:309-312 | `ToDescrete` clamps into `[0, size - 1]`, maps offsets below 0 to 0 and above `size - 1` to `size - 1`, and lands within 0.5 of an in-range offset |
| OsmLayers.DescreteMonotone | OSM/OSM_Parser/OSM_Parser/OSMParser.cs:310-311 | for a positive cell size, larger coordinates never map to smaller cells |
| OsmLayers.Points | OSM/OSM_Parser/OSM_Parser/OSMParser.cs:273-279 | one point per node reference |
| OsmLayers.WayLinesShape | OSM/OSM_Parser/OSM_Parser/OSMParser.cs:284-293 | `DrawWay` draws `n - 1` connected segments inside the bitmap |
| OsmLayers.DrawWay | OSM/OSM_Parser/OSM_Parser/OSMParser.cs:284-293 | the loop issues `WayLines`, failing on a missing node |
| OsmLayers.FillArea | OSM/OSM_Parser/OSM_Parser/OSMParser.cs:272-282 | the loop builds the polygon `AreaFill` describes |
| OsmLayers.AreaFillsShape | OSM/OSM_Parser/OSM_Parser/OSMParser.cs:296-299 | member fills are polygons of the given colour, at most one per member |
| OsmLayers.AreaFillsSkip | OSM/OSM_Parser/OSM_Parser/OSMParser.cs:297 | a member that is missing or not an area adds nothing |
| OsmLayers.HolesAfterOutline | OSM/OSM_Parser/OSM_Parser/OSMParser.cs:295-305 | all white outer fills precede all black inner fills |
| OsmLayers.DrawRelation | OSM/OSM_Parser/OSM_Parser/OSMParser.cs:295-305 | the two loops issue `RelationFills` |
| OsmLayers.FillMembers | OSM/OSM_Parser/OSM_Parser/OSMParser.cs:301-304 | one member loop issues `AreaFills` |
| OsmLayers.AreaFillsFailure | OSM/OSM_Parser/OSM_Parser/OSMParser.cs:275 | a member with a missing node aborts the relation |
| OsmLayers.OnlySelectedDrawn | OSM/OSM_Parser/OSM_Parser/OSMParser.cs:54-56 | a layer draws exactly what it draws for its selected ways |
| OsmLayers.BuildingDrawing | OSM/OSM_Parser/OSM_Parser/OSMParser.cs:102-111 | buildings fill areas white and draw other ways as lines; roads and rivers draw lines |
| OsmLayers.DrawWays | OSM/OSM_Parser/OSM_Parser/OSMParser.cs:102-111 | the way loop of a layer issues `WayPaints` |
| OsmLayers.WayPaintsFailure | OSM/OSM_Parser/OSM_Parser/OSMParser.cs:286-287 | a failure while drawing one way aborts the layer |
| OsmLayers.WayMapLastWins | OSM/OSM_Parser/OSM_Parser/OSMParser.cs:79 | `ways[id] = way` keeps every id, with its last way |
| OsmLayers.DrawRivers | OSM/OSM_Parser/OSM_Parser/OSMParser.cs:82-85 | the relation loop draws each `water=river` relation |
| OsmLayers.RiverFillsFailure | OSM/OSM_Parser/OSM_Parser/OSMParser.cs:84 | a failing relation aborts the river layer |
| OsmLayers.ParseRoads | OSM/OSM_Parser/OSM_Parser/OSMParser.cs:36-61 | the road layer is `WayLayer(Roads)` |
| OsmLayers.ParseBuildings | OSM/OSM_Parser/OSM_Parser/OSMParser.cs:92-116 | the building layer is `WayLayer(Buildings)` |
| OsmLayers.ParseWayLayer | OSM/OSM_Parser/OSM_Parser/OSMParser.cs:51-57 | node table, then the way pass drawing selected ways |
| OsmLayers.ParseRivers | OSM/OSM_Parser/OSM_Parser/OSMParser.cs:63-90 | the river layer is `RiverLayer` (waterways, then river relations) |
| OsmLayers.CollectWays | OSM/OSM_Parser/OSM_Parser/OSMParser.cs:72-80 | the loop builds `WayMap` |
| OsmLayers.RoadSelection | OSM/OSM_Parser/OSM_Parser/OSMParser.cs:43-55 | a way is a road iff its `highway` tag is one of the five road types |
| OsmLayers.Selects | OSM/OSM_Parser/OSM_Parser/OSMParser.cs:43-55 | a way is drawn on a layer only if it carries the layer's key: `highway` with one of the five `roadTypes`, `waterway` (lines 74-75), `building` or `amenity` (line 103); `RoadSelection` gives the converse for roads |
| Converter.NonEmpty | OSM_Parser/OSM_Parser/Program.cs:20 | `RemoveEmptyEntries` keeps exactly the non-empty pieces |
| Converter.ParseHeader | OSM_Parser/OSM_Parser/Program.cs:20-33 | the header parses iff all six values do; `ncols`, `nrows`, `cellsize` are taken from the second field |
| Converter.GeorefOf | OSM_Parser/OSM_Parser/Program.cs:23-30 | width and height scale up, the cell size scales down |
| Converter.SplitSpaces | OSM_Parser/OSM_Parser/Program.cs:53 | `Split()` yields at least one piece |
| Converter.RowCounters | OSM_Parser/OSM_Parser/Program.cs:48-51 | the `bonusRow / height > lastRow` test advances to a new input line exactly when `t / scale` grows |
| Converter.ColumnSource | OSM_Parser/OSM_Parser/Program.cs:57-64 | `bonusCol / width` is `mapCol / scale` |
| Converter.StoreField | OSM_Parser/OSM_Parser/Program.cs:58-60 | one cell: the truncated height of the field, or failure, nothing else changed |
| Converter.ReadRow | OSM_Parser/OSM_Parser/Program.cs:54-65 | the column loop fills one output row from fields `mapCol / scale` |
| Converter.LoadRow | OSM_Parser/OSM_Parser/Program.cs:53-65 | an output row gets `HeightAt` for every column, other rows unchanged |
| Converter.ReadRows | OSM_Parser/OSM_Parser/Program.cs:46-68 | the row loop fills every cell with `HeightAt`, or fails where a line or field is missing |
| Converter.ParseHeights | OSM_Parser/OSM_Parser/Program.cs:11-71 | succeeds iff the grid loads, and then returns the upscaled heights and georeference |
| Converter.UpscaleBlock | OSM_Parser/OSM_Parser/Program.cs:46-65 | each input cell becomes a `scale x scale` block; the first data line fills the highest row indices, so row 0 is the lower edge |
| Converter.UnscaledCopy | OSM_Parser/OSM_Parser/Program.cs:46-68 | at scale 1 the heights are the grid flipped vertically |
| Converter.IntText | OSM_Parser/OSM_Parser/Program.cs:155 | a printed integer is non-empty and has no space |
| Converter.JoinedReadsBack | OSM_Parser/OSM_Parser/Program.cs:150-160 | a space-separated PGM row splits back into its values |
| Converter.WriteRow | OSM_Parser/OSM_Parser/Program.cs:119-127 | the separator loop writes the tokens joined by single spaces |
| Converter.BitmapTokens | OSM_Parser/OSM_Parser/Program.cs:86-97 | one token per pixel of the row |
| Converter.BitmapPgm | OSM_Parser/OSM_Parser/Program.cs:77-100 | a bitmap PGM is four header lines and one line per row |
| Converter.SaveBitmapAsPGM | OSM_Parser/OSM_Parser/Program.cs:72-103 | the writer emits `BitmapPgm` |
| Converter.BitmapRowMeaning | OSM_Parser/OSM_Parser/Program.cs:84-100 | each row reads back as one `0`/`1` per pixel, `0` exactly for black |
| Converter.FoldMatrix | OSM_Parser/OSM_Parser/Program.cs:107-110 | the `y`/`x` loops fold over the matrix in that order |
| Converter.MatrixMaxBounds | OSM_Parser/OSM_Parser/Program.cs:107-110 | the running `max` bounds every entry and is either the start value or an entry |
| Converter.RowMaxBounds | OSM_Parser/OSM_Parser/Program.cs:109-110 | the same for one row |
| Converter.MatrixIntBounds | OSM_Parser/OSM_Parser/Program.cs:135-141 | every entry lies between the running `min` and `max` |
| Converter.RowIntBounds | OSM_Parser/OSM_Parser/Program.cs:138-141 | the same for one row |
| Converter.SaveRealMatrix | OSM_Parser/OSM_Parser/Program.cs:104-131 | the float writer emits its header with the maximum, then the rows |
| Converter.GreyRange | OSM_Parser/OSM_Parser/Program.cs:155 | `(int)((v - min) / l * 255)` is in [0, 255], monotone, 0 at min and 255 at max |
| Converter.Grey | OSM_Parser/OSM_Parser/Program.cs:155 | the `(int)` cast truncates the scaled height `(v - min) / l * 255` toward zero |
| Converter.SaveIntMatrix | OSM_Parser/OSM_Parser/Program.cs:132-163 | the int writer emits `IntMatrixPgm` |
| Converter.GreyRows | OSM_Parser/OSM_Parser/Program.cs:150-160 | the row loop writes one grey row per matrix row |
| Converter.HeightsAsGrey | OSM_Parser/OSM_Parser/Program.cs:143-155 | every height of a non-constant matrix is written as a grey level in [0, 255], the lowest as 0 and the highest as 255 |
| Converter.Convert | OSM_Parser/OSM_Parser/Program.cs:165-187 | a missing `args[0]` or a grid that does not load saves nothing and fails; otherwise the heights PGM of the loaded grid is saved first, and with no second argument `Main` succeeds; with an OSM file the layers saved after it, and success, are `LayerFiles` |
| Converter.LayerFiles | OSM_Parser/OSM_Parser/Program.cs:179-186 | the saved layers are a prefix of roads, rivers, buildings, each its layer's drawing; a failed run stops exactly at the first layer that throws, leaving the earlier files saved |
| Converter.SaveLayers | OSM_Parser/OSM_Parser/Program.cs:179-186 | the three parse-then-save steps leave exactly `LayerFiles` |

## Left out

- Random noise (`noisify_exp`, `noisify_cauchy`): randomness; the noisy raster is an input of the stages that use it.
- The trained networks and `load_model`: the network is a function parameter `predict`.
- `cv2.imread`, `cv2.resize` (including its `(rows, cols)` argument order), `np.pad` and image saving: library I/O and resampling. `Scanning.SeedIndependent` shows that the resized initial raster's values inside the region never matter.
- `generate_map`'s sequencing of stages and file paths: each stage's context, scan and cell rule is modelled, not the script that chains them.
- generate.py:305 takes the 4x derivatives of the 16x heights instead of the 4x heights: the derivative matrices are inputs of the fine contexts, so the model does not depend on which raster they came from.
- Floating point: all values are exact reals, so rounding error in `2**x`, `log2`, means and divisions is not modelled.
- `math.log2` and `2 ** x`: they are the `Base2` parameter, constrained by the laws the proofs use.
- Drawing pixels (`Graphics.DrawLine`, `FillPolygon`, `Bitmap`): each layer is modelled as the sequence of paint operations it issues, not as rasterised pixels.
- `ulong.Parse`, `float.Parse`, `int.Parse` and `float.ToString`: parameters; their syntax is not modelled.
- `XmlReader` and `StreamReader`: the XML document is a sequence of element events and a file is a sequence of lines; line terminators are not modelled.
- `Console.WriteLine`, `StreamWriter`, `file.Close`, `Dispose`: I/O; a written file is its sequence of lines.
- C# `float` and `int` widths: the overflow of `bonusRow`/`bonusCol` for very large grids is not modelled.
- OsmLayers.Descrete: requires a non-zero cell size; a zero or NaN cell size makes `ToDescrete` divide by zero, and `Converter.Convert` stops after saving the heights in that case, where the source goes on drawing.
- Converter.SaveIntMatrix: requires a matrix that is not constant; on a constant one the source divides by `l == 0` and casts NaN, and `Converter.Convert` then stops without saving, where the source writes that file.
- Converter.Convert: does not model the two stops above as the source behaves there; every other outcome, including the files already saved when a layer throws, is stated.
- Matrices.ScaleDown: requires a reduction of at least 1 that divides both dimensions, as `scale_down`'s docstring demands; otherwise `np.reshape` raises ValueError and a zero reduction raises ZeroDivisionError, and the model has no result for those calls.
- Windows.GetWindow: requires the window to lie inside the image; outside it Python's slices clamp or wrap and the reshape in `scale_down` raises. Every caller pads the raster first (`Windows.WindowFits`, `Scanning.ScanWindowInside`).
- Windows.IndexedTokens: uses the corrected count `TokenCount`, with a negative range counted as 0; basic/parsing.py:32 allocates `row_range * col_range` slots, a positive number when both ranges are negative (see Findings).
- Windows.ParseIndexed: fills the corrected count of slots, as `Windows.IndexedTokens` does, not the `row_range * col_range` slots of basic/parsing.py:32.
- White space: `Config.IsSpace` is the six ASCII white-space characters; Python's `strip()` and .NET's `Trim()` and `Split()` also count other Unicode white space.
- UnaryCodec.Relativization: requires a non-empty array; `np.average` of an empty array raises, and every caller passes a 25-cell window.
- Tags after a self-closing `<node/>`: `ParseNodes` does not reset `tags` there, so a later stray tag is added to the dictionary it already yielded. The model yields values, so the yielded record does not change; the layers read only the node positions.

## Findings

| source | as written | input that shows it | evidently intended | confidence | as-written member | corrected member |
|---|---|---|---|---|---|---|
| nn_generator/libraries/basic/parsing.py:29-34 | `tokens = [None] * (row_range * col_range)` multiplies two ranges that can both be negative | a 100x100 image: ranges -222 and -220 give 48840 token slots for no interior cell | as many tokens as interior cells (0 here), as nn_generator/libraries/parsing.py:25-28 produces | not executed | Windows.TokenCountAsWrittenOnSmallImage | Windows.ParseVersionsAgree |
| nn_generator/libraries/generate.py:120-122 | `relativization(window.flatten())` centres a flattened copy, so line 122 codes the raw window | a flat window of 25 ones: slot 0 is 1.0 as written, 0.0 relativized | relativize the window before coding it, as the 4x and 1x height contexts (lines 295-298 and 481-484) do | not executed | Contexts.HeightContext16AsWritten | Contexts.HeightContext16 |
