/**
 * The context vectors the generator feeds its networks besides the recurrent window.
 *
 * Every context closure of `generate_map` cuts a few 5x5 windows out of earlier layers
 * (each one `Windows.Token(grid, cols, r, c, 5, red)`, 25 values), encodes them with the
 * 8-slot unary codes and concatenates the codes. The functions below take those flattened
 * windows and build the concatenation; an encoder that raises makes the context `None`.
 */
module Contexts {
  import opened Wrappers
  import opened Numeric
  import opened Matrices
  import opened UnaryCodec
  import opened Windows
  import opened Generation

  /** `np.concatenate` of two codes; fails when either code failed. */
  function Cat(a: Option<seq<real>>, c: Option<seq<real>>): Option<seq<real>>
  {
    if a.Some? && c.Some? then Some(a.value + c.value) else None
  }

  /** `unary_log_encoding_array(w, encoding)`: defined exactly when every entry encodes, 8 slots each. */
  function LogPart(b: Base2, w: seq<real>): (r: Option<seq<real>>)
    ensures r.Some? <==> forall i :: 0 <= i < |w| ==> LogCode(b, w[i], Encoding).Some?
    ensures r.Some? ==> |r.value| == |w| * Encoding
  {
    EncodeAllLength(v => LogCode(b, v, Encoding), w, Encoding);
    LogCodeArray(b, w, Encoding)
  }

  /** Encoding a concatenation of windows is concatenating their codes. */
  lemma LogPartAppend(b: Base2, u: seq<real>, w: seq<real>)
    ensures LogPart(b, u + w) == Cat(LogPart(b, u), LogPart(b, w))
  {
    EncodeAllAppend(v => LogCode(b, v, Encoding), u, w);
  }

  /** The log code a relative part uses: reversed for heights, plain for buildings. */
  function Encoder(b: Base2, reversed: bool): real -> Option<seq<real>>
  {
    if reversed then (v => LogCodeReversed(b, v, Encoding)) else (v => LogCode(b, v, Encoding))
  }

  /** Both codes accept the same values, with 8 slots each. */
  lemma EncoderDefined(b: Base2, reversed: bool, v: real)
    ensures Encoder(b, reversed)(v).Some? <==> LogCode(b, v, Encoding).Some?
    ensures Encoder(b, reversed)(v).Some? ==> |Encoder(b, reversed)(v).value| == Encoding
  {
    assert UnaryCodeReversed(LogExponent(b, v, Encoding), Encoding).Some?
      <==> UnaryCode(LogExponent(b, v, Encoding), Encoding).Some?;
  }

  /** The centred window codes exactly when every centred entry has a log code, 8 slots per entry. */
  lemma CentredCodeFacts(b: Base2, w: seq<real>, reversed: bool)
    requires |w| > 0
    ensures var code := EncodeAll(Encoder(b, reversed), Shift(w, Mean(w)));
      && (code.Some? <==> forall i :: 0 <= i < |w| ==> LogCode(b, w[i] - Mean(w), Encoding).Some?)
      && (code.Some? ==> |code.value| == |w| * Encoding)
  {
    var enc, centred := Encoder(b, reversed), Shift(w, Mean(w));
    forall v ensures enc(v).Some? ==> |enc(v).value| == Encoding {
      EncoderDefined(b, reversed, v);
    }
    EncodeAllLength(enc, centred, Encoding);
    forall i | 0 <= i < |w| ensures enc(centred[i]).Some? <==> LogCode(b, w[i] - Mean(w), Encoding).Some? {
      EncoderDefined(b, reversed, centred[i]);
    }
  }

  /**
   * A height window after `relativization`: its entries minus their mean, log-coded, followed
   * by the linear code of the mean. `reversed` picks the reversed log code (height contexts
   * and the height training data) over the plain one (building contexts).
   */
  function RelativePart(b: Base2, w: seq<real>, reversed: bool): (r: Option<seq<real>>)
    requires |w| > 0
    ensures r.Some? <==> forall i :: 0 <= i < |w| ==> LogCode(b, w[i] - Mean(w), Encoding).Some?
    ensures r.Some? ==> |r.value| == |w| * Encoding + Encoding
    ensures r.Some? ==> r.value[|w| * Encoding..] == LinearCode(Mean(w), Encoding)
  {
    CentredCodeFacts(b, w, reversed);
    Cat(EncodeAll(Encoder(b, reversed), Shift(w, Mean(w))), Some(LinearCode(Mean(w), Encoding)))
  }

  /** Subtracting the mean forgets any constant offset of the window. */
  lemma RelativeShiftInvariant(w: seq<real>, d: real)
    requires |w| > 0
    ensures Mean(Shift(w, d)) == Mean(w) - d
    ensures Shift(Shift(w, d), Mean(Shift(w, d))) == Shift(w, Mean(w))
  {
    MeanShift(w, d);
  }

  /** A relative part depends only on the window's shape, up to the code of its mean. */
  lemma RelativePartShiftInvariant(b: Base2, w: seq<real>, d: real, reversed: bool)
    requires |w| > 0
    ensures RelativePart(b, Shift(w, d), reversed).Some? <==> RelativePart(b, w, reversed).Some?
    ensures RelativePart(b, Shift(w, d), reversed).Some? ==>
      RelativePart(b, Shift(w, d), reversed).value[..|w| * Encoding]
        == RelativePart(b, w, reversed).value[..|w| * Encoding]
  {
    RelativeShiftInvariant(w, d);
  }

  // ---------------------------------------------------------------------------
  // The 64 -> 16 stage

  /**
   * `height_context_16x` as written: the mean is taken of a flattened copy, so the window
   * itself is log-coded without being relativized.
   */
  function HeightContext16AsWritten(b: Base2, window: seq<real>): (r: Option<seq<real>>)
    requires |window| > 0
    ensures r.Some? ==> |r.value| == |window| * Encoding + Encoding
    ensures r.Some? ==> r.value[|window| * Encoding..] == LinearCode(Mean(window), Encoding)
  {
    EncodeAllLength(v => LogCodeReversed(b, v, Encoding), window, Encoding);
    Cat(LogCodeArrayReversed(b, window, Encoding), Some(LinearCode(Mean(window), Encoding)))
  }

  /** The 16x height context as the rest of the pipeline lays heights out: relativized first. */
  function HeightContext16(b: Base2, window: seq<real>): (r: Option<seq<real>>)
    requires |window| > 0
    ensures r.Some? ==> |r.value| == |window| * Encoding + Encoding
  {
    RelativePart(b, window, true)
  }

  /**
   * `height_context_16x(row, col)`: the reduction-64 window around the mapped fine cell, laid
   * out relativized as the finer height contexts are (see `HeightContext16AsWritten`).
   */
  function HeightContext16At(b: Base2, heights: Matrix, width: nat, row: int, col: int): (r: Option<seq<real>>)
    requires IsMatrix(heights, |heights|, width)
    requires WindowInside(|heights|, width, Coarse(row), Coarse(col), Cut, 64)
    ensures r.Some? ==> |r.value| == 208
  {
    HeightContext16(b, Token(heights, width, Coarse(row), Coarse(col), Cut, 64))
  }

  /** A window of `k` equal heights `c`, which every layout must see as flat. */
  lemma FlatWindowCentred(c: real, k: nat)
    requires k > 0
    ensures Mean(Fill(c, k)) == c && Shift(Fill(c, k), c) == Fill(0.0, k)
  {
    MeanFill(c, k);
  }

  /** An array code starts with the code of its first entry. */
  lemma EncodeAllHead(enc: real -> Option<seq<real>>, arr: seq<real>)
    requires |arr| > 0 && EncodeAll(enc, arr).Some?
    ensures enc(arr[0]).Some?
    ensures |enc(arr[0]).value| <= |EncodeAll(enc, arr).value|
    ensures EncodeAll(enc, arr).value[..|enc(arr[0]).value|] == enc(arr[0]).value
  {
    assert arr == [arr[0]] + arr[1..];
    EncodeAllAppend(enc, [arr[0]], arr[1..]);
    assert [arr[0]][..0] == [];
  }

  /** The reversed log code of 1 is all ones, because `log2(1) = 0`. */
  lemma ReversedCodeOfOne(b: Base2)
    requires Lawful(b)
    ensures LogCodeReversed(b, 1.0, Encoding) == Some(Fill(1.0, Encoding))
  {
    Log2OfOne(b);
    assert LogExponent(b, 1.0, Encoding) == 0.0;
    assert Trunc(0.0) == 0;
    var code := UnaryCodeReversed(0.0, Encoding).value;
    assert forall i :: 0 <= i < Encoding ==> code[i] == 1.0;
    assert code == Fill(1.0, Encoding);
  }

  /**
   * A flat window of ones: the relativized layout codes 25 zeros (all slots 0), the layout as
   * written codes 25 ones (all slots 1), so the first slot the network sees differs; a flat
   * window of zeros gives slot 0 in both, so the as-written code moves with the offset.
   */
  lemma HeightContext16Differs(b: Base2)
    requires Lawful(b)
    ensures HeightContext16AsWritten(b, Fill(1.0, 25)).Some?
    ensures HeightContext16AsWritten(b, Fill(1.0, 25)).value[0] == 1.0
    ensures HeightContext16(b, Fill(1.0, 25)).Some?
    ensures HeightContext16(b, Fill(1.0, 25)).value[0] == 0.0
    ensures HeightContext16AsWritten(b, Fill(0.0, 25)).Some?
    ensures HeightContext16AsWritten(b, Fill(0.0, 25)).value[0] == 0.0
  {
    var enc := v => LogCodeReversed(b, v, Encoding);
    ReversedCodeOfOne(b);
    LogCodeOfZero(b, Encoding);
    FlatWindowCentred(1.0, 25);
    MeanFill(0.0, 25);
    EncodeAllLength(enc, Fill(1.0, 25), Encoding);
    EncodeAllLength(enc, Fill(0.0, 25), Encoding);
    EncodeAllHead(enc, Fill(1.0, 25));
    EncodeAllHead(enc, Fill(0.0, 25));
    assert Fill(1.0, 25)[0] == 1.0 && Fill(0.0, 25)[0] == 0.0;
    var ones := LogCodeArrayReversed(b, Fill(1.0, 25), Encoding).value;
    assert ones[..8] == Fill(1.0, 8);
    assert ones[0] == ones[..8][0];
    var zeros := LogCodeArrayReversed(b, Fill(0.0, 25), Encoding).value;
    assert zeros[..8] == Fill(0.0, 8);
    assert zeros[0] == zeros[..8][0];
    assert HeightContext16(b, Fill(1.0, 25)) == Cat(EncodeAll(enc, Fill(0.0, 25)), Some(LinearCode(1.0, Encoding)));
  }

  /** The corrected 16x context sees a window and the same window raised by `d` alike. */
  lemma HeightContext16ShiftInvariant(b: Base2, window: seq<real>, d: real)
    requires |window| > 0
    ensures HeightContext16(b, Shift(window, d)).Some? <==> HeightContext16(b, window).Some?
    ensures HeightContext16(b, Shift(window, d)).Some? ==>
      HeightContext16(b, Shift(window, d)).value[..|window| * Encoding]
        == HeightContext16(b, window).value[..|window| * Encoding]
  {
    RelativePartShiftInvariant(b, window, d, true);
  }

  /** `road_context`: five windows coded one after the other. */
  function RoadContext16(b: Base2, h1Rows: seq<real>, h1Cols: seq<real>, layer1: seq<real>,
                         h0Rows: seq<real>, h0Cols: seq<real>): (r: Option<seq<real>>)
    ensures r.Some? ==> |r.value| == (|h1Rows| + |h1Cols| + |layer1| + |h0Rows| + |h0Cols|) * Encoding
  {
    Cat(Cat(Cat(Cat(LogPart(b, h1Rows), LogPart(b, h1Cols)), LogPart(b, layer1)), LogPart(b, h0Rows)),
        LogPart(b, h0Cols))
  }

  /** `river_context`: the same five windows, concatenated first and coded in one call. */
  function RiverContext16(b: Base2, h1Rows: seq<real>, h1Cols: seq<real>, layer1: seq<real>,
                          h0Rows: seq<real>, h0Cols: seq<real>): (r: Option<seq<real>>)
    ensures r.Some? ==> |r.value| == (|h1Rows| + |h1Cols| + |layer1| + |h0Rows| + |h0Cols|) * Encoding
  {
    LogPart(b, h1Rows + h1Cols + layer1 + h0Rows + h0Cols)
  }

  /** Coding the concatenation equals concatenating the codes: both 16x layouts agree. */
  lemma RiverContextIsRoadLayout(b: Base2, h1Rows: seq<real>, h1Cols: seq<real>, layer1: seq<real>,
                                 h0Rows: seq<real>, h0Cols: seq<real>)
    ensures RiverContext16(b, h1Rows, h1Cols, layer1, h0Rows, h0Cols)
      == RoadContext16(b, h1Rows, h1Cols, layer1, h0Rows, h0Cols)
  {
    LogPartAppend(b, h1Rows, h1Cols);
    LogPartAppend(b, h1Rows + h1Cols, layer1);
    LogPartAppend(b, h1Rows + h1Cols + layer1, h0Rows);
    LogPartAppend(b, h1Rows + h1Cols + layer1 + h0Rows, h0Cols);
  }

  /** The layers one level of a building context codes: heights, rivers, roads and maybe buildings. */
  datatype Level = Level(heights: seq<real>, rivers: seq<real>, roads: seq<real>, buildings: Option<seq<real>>)

  /** The number of 8-slot codes a level contributes: one per value, plus the heights' mean. */
  function LevelCodes(l: Level): nat
  {
    |l.heights| + 1 + |l.rivers| + |l.roads| + (if l.buildings.Some? then |l.buildings.value| else 0)
  }

  /** Every window of the level is a flattened 5x5 window. */
  predicate FullLevel(l: Level)
  {
    |l.heights| == |l.rivers| == |l.roads| == 25 && (l.buildings.Some? ==> |l.buildings.value| == 25)
  }

  /** One level: relativized heights with their mean, then rivers, roads and buildings, log-coded. */
  function LevelPart(b: Base2, l: Level): (r: Option<seq<real>>)
    requires |l.heights| > 0
    ensures r.Some? ==> |r.value| == LevelCodes(l) * Encoding
  {
    var base := Cat(Cat(RelativePart(b, l.heights, false), LogPart(b, l.rivers)), LogPart(b, l.roads));
    if l.buildings.Some? then Cat(base, LogPart(b, l.buildings.value)) else base
  }

  /** `building_context`: the 16-level layers with the 64-level buildings, then the 4-level layers. */
  function BuildingContext16(b: Base2, level1: Level, level0: Level): (r: Option<seq<real>>)
    requires |level1.heights| > 0 && |level0.heights| > 0
    requires level1.buildings.Some? && level0.buildings.None?
    ensures r.Some? && FullLevel(level1) && FullLevel(level0) ==> |r.value| == 1416
  {
    Cat(LevelPart(b, level1), LevelPart(b, level0))
  }

  // ---------------------------------------------------------------------------
  // The 4x and 1x stages

  /** `height_context_4x` and `height_context_1x`: two relativized height windows. */
  function HeightContextFine(b: Base2, heights2: seq<real>, heights1: seq<real>): (r: Option<seq<real>>)
    requires |heights2| > 0 && |heights1| > 0
    ensures r.Some? ==> |r.value| == (|heights2| + |heights1| + 2) * Encoding
  {
    Cat(RelativePart(b, heights2, true), RelativePart(b, heights1, true))
  }

  /** The coarser window of a fine height context is laid out as the corrected 16x context. */
  lemma HeightContextFineStartsLikeHeight16(b: Base2, heights2: seq<real>, heights1: seq<real>)
    requires |heights2| > 0 && |heights1| > 0
    requires HeightContextFine(b, heights2, heights1).Some?
    ensures HeightContext16(b, heights2).Some?
    ensures HeightContextFine(b, heights2, heights1).value[..(|heights2| + 1) * Encoding]
      == HeightContext16(b, heights2).value
  {
    var head := RelativePart(b, heights2, true).value;
    assert |head| == (|heights2| + 1) * Encoding;
    assert (head + RelativePart(b, heights1, true).value)[..|head|] == head;
  }

  /**
   * `road_context_4x`, `river_context_4x`, `road_context_1x` and `river_context_1x`: eight
   * windows, concatenated and coded in one call.
   */
  function LayerContextFine(b: Base2, windows: seq<seq<real>>): (r: Option<seq<real>>)
    requires |windows| == 8
    ensures r.Some? ==> |r.value| == |Flatten(windows)| * Encoding
  {
    LogPart(b, Flatten(windows))
  }

  /** With 25-value windows the fine layer context has 1600 slots, window `i` at `200 * i`. */
  lemma LayerContextFineLayout(b: Base2, windows: seq<seq<real>>, i: nat)
    requires |windows| == 8 && IsMatrix(windows, 8, 25) && i < 8
    requires LayerContextFine(b, windows).Some?
    ensures |LayerContextFine(b, windows).value| == 1600
    ensures LogPart(b, windows[i]).Some?
    ensures LayerContextFine(b, windows).value[200 * i..200 * i + 200] == LogPart(b, windows[i]).value
  {
    FlattenLength(windows, 8, 25);
    var before := Flatten(windows[..i]);
    var after := Flatten(windows[i + 1..]);
    assert windows == windows[..i] + [windows[i]] + windows[i + 1..];
    FlattenConcat(windows[..i] + [windows[i]], windows[i + 1..]);
    FlattenConcat(windows[..i], [windows[i]]);
    assert Flatten([windows[i]]) == windows[i] by {
      assert Flatten([windows[i]]) == Flatten([windows[i]][..0]) + windows[i];
    }
    FlattenLength(windows[..i], i, 25);
    LogPartAppend(b, before + windows[i], after);
    LogPartAppend(b, before, windows[i]);
    var whole := LayerContextFine(b, windows).value;
    var p := LogPart(b, before).value;
    assert |p| == 200 * i;
    assert whole == p + LogPart(b, windows[i]).value + LogPart(b, after).value;
  }

  /** `building_context_4x` and `building_context_1x`: three levels, the last without buildings. */
  function BuildingContextFine(b: Base2, level2: Level, level1: Level, level0: Level): (r: Option<seq<real>>)
    requires |level2.heights| > 0 && |level1.heights| > 0 && |level0.heights| > 0
    requires level2.buildings.Some? && level1.buildings.Some? && level0.buildings.None?
    ensures r.Some? && FullLevel(level2) && FullLevel(level1) && FullLevel(level0) ==> |r.value| == 2224
  {
    Cat(Cat(LevelPart(b, level2), LevelPart(b, level1)), LevelPart(b, level0))
  }
}
