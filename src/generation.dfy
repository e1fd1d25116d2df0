/**
 * The two fill loops of nn_generator/libraries/generate.py. `generate` centres the 22
 * recurrent cells on their mean, encodes them with the reversed log code plus a linear code
 * of the mean, and stores the decoded prediction plus the mean; `generate_other` optionally
 * log-encodes the recurrent cells, and optionally decodes and rounds the prediction. The
 * predictor (a Keras model) and the context closure are parameters.
 */
module Generation {
  import opened Wrappers
  import opened Numeric
  import opened Matrices
  import opened UnaryCodec
  import opened Windows
  import opened Scanning

  const Cut: nat := 5
  const Encoding: nat := 8
  /** `64 * 5 // 2 + 2`: half of the widest window plus the two-row shift of `get_window`. */
  const Padding: nat := 64 * 5 / 2 + 2

  /** Which of the two loops: `generate`, or `generate_other` with its `encode`/`_round` flags. */
  datatype Rule = Height | Other(encode: bool, round: bool)

  /** What a step computes with: the log base, the predictor, the context closure and the loop. */
  datatype Model = Model(
    b: Base2,
    predict: seq<real> -> seq<real>,
    context: (int, int) -> Option<seq<real>>,
    rule: Rule)

  /** `get_window(generated, r, c, 1, cut).flatten()[:-3]`. */
  function Recurrent(g: Matrix, width: nat, r: int, c: int): (rec: seq<real>)
    requires IsMatrix(g, |g|, width) && WindowInside(|g|, width, r, c, Cut, 1)
    ensures |rec| == RecurrentLength
  {
    Token(g, width, r, c, Cut, 1)[..RecurrentLength]
  }

  /** The recurrent input holds exactly the cells `Gather` names, all before `(r, c)`. */
  lemma RecurrentIsGather(g: Matrix, width: nat, r: int, c: int)
    requires IsMatrix(g, |g|, width) && WindowInside(|g|, width, r, c, Cut, 1)
    ensures Recurrent(g, width, r, c) == Gather(g, width, r, c)
  {
    RecurrentLayout(g, width, r, c);
  }

  /** The predictor input for one cell, or `None` where an encoder raises. */
  function Input(m: Model, ctx: seq<real>, rec: seq<real>): Option<seq<real>>
    requires |rec| == RecurrentLength
  {
    match m.rule
    case Height =>
      var absolute := Mean(rec);
      (match LogCodeArrayReversed(m.b, Shift(rec, absolute), Encoding)
       case None => None
       case Some(e) => Some(ctx + e + LinearCode(absolute, Encoding)))
    case Other(encode, _) =>
      if encode then
        (match LogCodeArray(m.b, rec, Encoding)
         case None => None
         case Some(e) => Some(ctx + e))
      else Some(ctx + rec)
  }

  /** The value stored from the predictor's output row, or `None` where `float` raises. */
  function Decoded(m: Model, out: seq<real>, rec: seq<real>): Option<real>
    requires |rec| == RecurrentLength
  {
    match m.rule
    case Height => Some(ReversedDecode(m.b, out) + Mean(rec))
    case Other(encode, round) =>
      var value: Option<real> :=
        if encode then Some(LogDecode(m.b, out))
        else if |out| == 1 then Some(out[0])
        else None;
      if round && value.Some? then Some(RoundHalfEven(value.value) as real) else value
  }

  /** The value one step writes at `(r, c)`, given the 22 recurrent cells. */
  function Value(m: Model, r: int, c: int, rec: seq<real>): Option<real>
    requires |rec| == RecurrentLength
  {
    match m.context(r, c)
    case None => None
    case Some(ctx) =>
      match Input(m, ctx, rec)
      case None => None
      case Some(input) => Decoded(m, m.predict(input), rec)
  }

  /** The model as a rule of the scan. */
  function RuleOf(m: Model): (rule: CellRule)
    ensures forall r, c, rec :: rule(r, c, rec).Some? ==> |rec| == RecurrentLength && m.context(r, c).Some?
  {
    (r: int, c: int, rec: seq<real>) => if |rec| == RecurrentLength then Value(m, r, c, rec) else None
  }

  /** The rule computes the context, then the input, then decodes the prediction; any `None` stops it. */
  lemma RuleSteps(m: Model, r: int, c: int, rec: seq<real>)
    requires |rec| == RecurrentLength
    ensures RuleOf(m)(r, c, rec) ==
      if m.context(r, c).None? || Input(m, m.context(r, c).value, rec).None? then None
      else Decoded(m, m.predict(Input(m, m.context(r, c).value, rec).value), rec)
  {
  }

  /** In `generate` the stored value is the decoded prediction plus the recurrent mean. */
  lemma DecodedHeight(m: Model, out: seq<real>, rec: seq<real>)
    requires m.rule.Height? && |rec| == RecurrentLength
    ensures Decoded(m, out, rec) == Some(ReversedDecode(m.b, out) + Mean(rec))
  {
  }

  /** The predictor input is the context followed by 184, 176 or 22 recurrent features. */
  lemma InputLength(m: Model, ctx: seq<real>, rec: seq<real>)
    requires |rec| == RecurrentLength
    requires Input(m, ctx, rec).Some?
    ensures m.rule.Height? ==> |Input(m, ctx, rec).value| == |ctx| + 184
    ensures m.rule.Other? && m.rule.encode ==> |Input(m, ctx, rec).value| == |ctx| + 176
    ensures m.rule.Other? && !m.rule.encode ==> |Input(m, ctx, rec).value| == |ctx| + 22
    ensures Input(m, ctx, rec).value[..|ctx|] == ctx
  {
    if m.rule.Height? {
      EncodeAllLength(v => LogCodeReversed(m.b, v, Encoding), Shift(rec, Mean(rec)), Encoding);
    } else if m.rule.encode {
      EncodeAllLength(v => LogCode(m.b, v, Encoding), rec, Encoding);
    }
  }

  /**
   * In `generate` the stored value is the decoded prediction plus the recurrent mean; the
   * recurrent part of the input is centred (mean 0), and its last 8 entries encode the
   * mean's magnitude.
   */
  lemma HeightCellMeaning(m: Model, ctx: seq<real>, rec: seq<real>)
    requires m.rule.Height? && |rec| == RecurrentLength
    requires Input(m, ctx, rec).Some?
    ensures Decoded(m, m.predict(Input(m, ctx, rec).value), rec)
      == Some(ReversedDecode(m.b, m.predict(Input(m, ctx, rec).value)) + Mean(rec))
    ensures Mean(Shift(rec, Mean(rec))) == 0.0
    ensures |Input(m, ctx, rec).value| == |ctx| + 184
    ensures -1.0 <= Mean(rec) <= 1.0 ==>
      LinearDecode(Input(m, ctx, rec).value[|ctx| + 176..]) == Abs(Mean(rec))
  {
    MeanOfShiftByMean(rec);
    InputLength(m, ctx, rec);
    EncodeAllLength(v => LogCodeReversed(m.b, v, Encoding), Shift(rec, Mean(rec)), Encoding);
    assert Input(m, ctx, rec).value[|ctx| + 176..] == LinearCode(Mean(rec), Encoding);
    if -1.0 <= Mean(rec) <= 1.0 {
      LinearRoundTrip(Mean(rec), Encoding);
    }
  }

  /** With `_round`, `generate_other` stores an integer no farther than 1/2 from the output. */
  lemma RoundedCell(m: Model, out: seq<real>, rec: seq<real>)
    requires m.rule.Other? && m.rule.round && |rec| == RecurrentLength
    requires m.rule.encode || |out| == 1
    ensures Decoded(m, out, rec).Some?
    ensures var raw := if m.rule.encode then LogDecode(m.b, out) else out[0];
      && Decoded(m, out, rec).value == RoundHalfEven(raw) as real
      && Abs(Decoded(m, out, rec).value - raw) <= 0.5
  {
  }

  // ---------------------------------------------------------------------------
  // The loops

  /** `get_window(generated, r, c, 1, cut).flatten()[:-3]`, as a fresh array. */
  method RecurrentWindow(cur: Matrix, width: nat, r: int, c: int) returns (recurrent: array<real>)
    requires IsMatrix(cur, |cur|, width) && WindowInside(|cur|, width, r, c, Cut, 1)
    ensures fresh(recurrent) && recurrent[..] == Gather(cur, width, r, c)
  {
    var window := Token(cur, width, r, c, Cut, 1);
    recurrent := new real[RecurrentLength](i requires 0 <= i < RecurrentLength => window[i]);
    RecurrentIsGather(cur, width, r, c);
    assert recurrent[..] == Gather(cur, width, r, c);
  }

  /** One step of `generate`: relativize the recurrent cells, encode, predict, decode. */
  method HeightCell(m: Model, cur: Matrix, width: nat, r: int, c: int) returns (v: Option<real>)
    requires m.rule.Height? && IsMatrix(cur, |cur|, width) && WindowInside(|cur|, width, r, c, Cut, 1)
    ensures v == RuleOf(m)(r, c, Gather(cur, width, r, c))
  {
    var context := m.context(r, c);
    var recurrent := RecurrentWindow(cur, width, r, c);
    ghost var rec := recurrent[..];
    RuleSteps(m, r, c, rec);
    var absolute := Relativization(recurrent);
    var absoluteEncoded := UnaryLinearEncoding(absolute, Encoding);
    var encoded := UnaryLogEncodingArrayReversed(m.b, recurrent[..], Encoding);
    if context.None? || encoded.None? {
      return None;
    }
    var input := context.value + encoded.value + absoluteEncoded;
    assert Input(m, context.value, rec) == Some(input);
    var output := m.predict(input);
    var decoded := UnaryLogDecodingReversed(m.b, output);
    assert absolute == Mean(rec) && decoded == ReversedDecode(m.b, output);
    v := Some(decoded + absolute);
    DecodedHeight(m, output, rec);
  }

  /** One step of `generate_other`: optionally encode, predict, optionally decode and round. */
  method OtherCell(m: Model, cur: Matrix, width: nat, r: int, c: int) returns (v: Option<real>)
    requires m.rule.Other? && IsMatrix(cur, |cur|, width) && WindowInside(|cur|, width, r, c, Cut, 1)
    ensures v == RuleOf(m)(r, c, Gather(cur, width, r, c))
  {
    var context := m.context(r, c);
    var recurrent := Token(cur, width, r, c, Cut, 1)[..RecurrentLength];
    RecurrentIsGather(cur, width, r, c);
    ghost var rec := recurrent;
    RuleSteps(m, r, c, rec);
    if m.rule.encode {
      var encoded := UnaryLogEncodingArray(m.b, recurrent, Encoding);
      if encoded.None? {
        return None;
      }
      recurrent := encoded.value;
    }
    if context.None? {
      return None;
    }
    assert Input(m, context.value, rec) == Some(context.value + recurrent);
    var output := m.predict(context.value + recurrent);
    var value: real;
    if m.rule.encode {
      value := LogDecode(m.b, output);
    } else {
      if |output| != 1 {
        return None;
      }
      value := output[0];
    }
    if m.rule.round {
      value := RoundHalfEven(value) as real;
    }
    v := Some(value);
  }

  /** `generate(model, padding, get_context, rows, cols, generated)`. */
  method Generate(
    b: Base2, predict: seq<real> -> seq<real>, padding: nat, context: (int, int) -> Option<seq<real>>,
    rows: nat, cols: nat, generated: array2<real>) returns (ok: bool, ghost stop: nat)
    requires Fits(Region(rows, cols, padding), generated.Length0, generated.Length1)
    modifies generated
    ensures var s, m := Region(rows, cols, padding), Model(b, predict, context, Height);
      && (ok <==> Run(s, RuleOf(m), old(Snapshot(generated)), generated.Length1, rows * cols).Some?)
      && (ok ==> Snapshot(generated) == Run(s, RuleOf(m), old(Snapshot(generated)), generated.Length1, rows * cols).value)
      && (!ok ==> StoppedAt(s, RuleOf(m), old(Snapshot(generated)), generated.Length1, stop, Snapshot(generated)))
  {
    ok, stop := ScanRaster(Region(rows, cols, padding), RuleOf(Model(b, predict, context, Height)), generated);
  }

  /** `generate_other(model, get_context, rows, cols, generated, encode, _round)`, with the universal padding. */
  method GenerateOther(
    b: Base2, predict: seq<real> -> seq<real>, context: (int, int) -> Option<seq<real>>,
    rows: nat, cols: nat, generated: array2<real>, encode: bool, round: bool) returns (ok: bool, ghost stop: nat)
    requires Fits(Region(rows, cols, Padding), generated.Length0, generated.Length1)
    modifies generated
    ensures var s, m := Region(rows, cols, Padding), Model(b, predict, context, Other(encode, round));
      && (ok <==> Run(s, RuleOf(m), old(Snapshot(generated)), generated.Length1, rows * cols).Some?)
      && (ok ==> Snapshot(generated) == Run(s, RuleOf(m), old(Snapshot(generated)), generated.Length1, rows * cols).value)
      && (!ok ==> StoppedAt(s, RuleOf(m), old(Snapshot(generated)), generated.Length1, stop, Snapshot(generated)))
  {
    ok, stop := ScanRaster(Region(rows, cols, Padding), RuleOf(Model(b, predict, context, Other(encode, round))), generated);
  }

  // ---------------------------------------------------------------------------
  // Padding and grid shape

  /**
   * The universal padding is 162, and a raster padded by it on every side fits the scan;
   * moreover every window with cut 5 and reduction at most 64 around a scanned cell lies
   * inside it.
   */
  lemma PaddedRasterFits(rows: nat, cols: nat, red: nat)
    requires 1 <= red <= 64
    ensures Padding == 162
    ensures Fits(Region(rows, cols, Padding), rows + 2 * Padding, cols + 2 * Padding)
    ensures forall r, c :: InRegion(Region(rows, cols, Padding), r, c) ==>
      WindowInside(rows + 2 * Padding, cols + 2 * Padding, r, c, Cut, red)
  {
    forall r, c | InRegion(Region(rows, cols, Padding), r, c)
      ensures WindowInside(rows + 2 * Padding, cols + 2 * Padding, r, c, Cut, red)
    {
      WindowFits(rows + 2 * Padding, cols + 2 * Padding, r, c, red);
    }
  }

  /** `int(np.ceil(n / 16))`. */
  function CeilDiv16(n: nat): nat
  {
    (n + 15) / 16
  }

  /** The final grid, `16 * ceil(n / 16)` cells per side, covers the input and overshoots by less than 16. */
  lemma GridCovers(n: nat)
    ensures n <= 16 * CeilDiv16(n) < n + 16
    ensures CeilDiv16(n) * 4 * 4 == 16 * CeilDiv16(n)
  {
  }

  /** `(row - padding) * 16 + padding`: the fine cell under a coarse one. */
  function Coarse(x: int): int
  {
    (x - Padding) * 16 + Padding
  }

  /**
   * The first target cell maps to itself, a step of one coarse cell is 16 fine cells, and
   * the reduction-64 window around a mapped cell lies inside the padded input whose side
   * `n` gave `CeilDiv16(n)` coarse cells.
   */
  lemma CoarseMap(n: nat, w: nat, r: int, c: int)
    requires Padding <= r < CeilDiv16(n) + Padding && Padding <= c < CeilDiv16(w) + Padding
    ensures Coarse(Padding) == Padding && Coarse(r + 1) == Coarse(r) + 16
    ensures WindowInside(n + 2 * Padding, w + 2 * Padding, Coarse(r), Coarse(c), Cut, 64)
  {
    GridCovers(n);
    GridCovers(w);
  }
}
