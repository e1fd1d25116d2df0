/**
 * The saturating unary codec of the raster engine (nn_generator/libraries/basic/utilities.py):
 * a scalar becomes `n` slots, plain or reversed (complemented), on a logarithmic or
 * a linear scale; array variants concatenate per-element codes; decoders map codes
 * back to scalars; relativization subtracts a vector's mean in place.
 *
 * Samples are exact reals. `unary_encoding` is modelled for every real input,
 * including the negative exponents the log encoders produce for |v| > 1: there
 * Python's `int()` truncates toward zero and the slot index counts from the end,
 * and an index below `-n` raises IndexError, modelled as `None`.
 */
module UnaryCodec {
  import opened Wrappers
  import opened Numeric

  // ---------------------------------------------------------------------------
  // Scalar codes

  /** The slot `arr[m]` touches: Python counts a negative index from the end. */
  function Slot(m: int, n: nat): int
  {
    if m < 0 then m + n else m
  }

  /** What `unary_encoding(x, n)` returns; `None` where it raises IndexError. */
  function UnaryCode(x: real, n: nat): (r: Option<seq<real>>)
    ensures r.None? <==> x <= -(n as real) - 1.0
    ensures r.Some? ==> |r.value| == n
  {
    var t := Trunc(x);
    var m := MinInt(t, n);
    if m < -(n as int) then None
    else Some(seq(n, i requires 0 <= i < n =>
      if i < m then 1.0 else if m < n && i == Slot(m, n) then x - t as real else 0.0))
  }

  /** What `unary_encoding_reversed(x, n)` returns: slot by slot the complement of `UnaryCode`. */
  function UnaryCodeReversed(x: real, n: nat): (r: Option<seq<real>>)
    ensures r.Some? <==> UnaryCode(x, n).Some?
    ensures r.Some? ==>
      (|r.value| == n && forall i :: 0 <= i < n ==> r.value[i] == 1.0 - UnaryCode(x, n).value[i])
  {
    var t := Trunc(x);
    var m := MinInt(t, n);
    if m < -(n as int) then None
    else Some(seq(n, i requires 0 <= i < n =>
      if i < m then 0.0 else if m < n && i == Slot(m, n) then 1.0 - (x - t as real) else 1.0))
  }

  /** For `x >= 0` the code is `min(floor x, n)` ones, then the fraction, then zeros. */
  lemma UnaryCodeShape(x: real, n: nat)
    requires x >= 0.0
    ensures var m := MinInt(x.Floor, n);
      UnaryCode(x, n) == Some(Fill(1.0, m) + (if m < n then [x - x.Floor as real] + Fill(0.0, n - m - 1) else []))
  {
    var m := MinInt(x.Floor, n);
    var tail := if m < n then [x - x.Floor as real] + Fill(0.0, n - m - 1) else [];
    assert Trunc(x) == x.Floor;
    assert m >= 0 && Slot(m, n) == m;
    var c := UnaryCode(x, n).value;
    var d := Fill(1.0, m) + tail;
    assert |d| == n;
    forall i | 0 <= i < n ensures c[i] == d[i] {
      if i < m {
        assert d[i] == 1.0;
      } else if i == m {
        assert d[i] == x - x.Floor as real;
      } else {
        assert d[i] == tail[i - m];
      }
    }
    assert c == d;
  }

  /** For `x >= 0` every slot lies in [0, 1] and the slots add up to `min(x, n)`. */
  lemma UnaryCodeSum(x: real, n: nat)
    requires x >= 0.0
    ensures forall i :: 0 <= i < n ==> 0.0 <= UnaryCode(x, n).value[i] <= 1.0
    ensures Sum(UnaryCode(x, n).value) == MinReal(x, n as real)
  {
    var m := MinInt(x.Floor, n);
    UnaryCodeShape(x, n);
    SumFill(1.0, m);
    if m < n {
      var tail := [x - x.Floor as real] + Fill(0.0, n - m - 1);
      SumFill(0.0, n - m - 1);
      SumConcat([x - x.Floor as real], Fill(0.0, n - m - 1));
      assert Sum([x - x.Floor as real]) == x - x.Floor as real by {
        assert [x - x.Floor as real][..0] == [];
      }
      SumConcat(Fill(1.0, m), tail);
    } else {
      assert Fill(1.0, m) + [] == Fill(1.0, m);
    }
  }

  /** The example of the design notes: 2.5 in five slots, plain and reversed. */
  lemma UnaryCodeExample()
    ensures UnaryCode(2.5, 5) == Some([1.0, 1.0, 0.5, 0.0, 0.0])
    ensures UnaryCodeReversed(2.5, 5) == Some([0.0, 0.0, 0.5, 1.0, 1.0])
  {
    assert Trunc(2.5) == 2 && MinInt(2, 5) == 2 && Slot(2, 5) == 2;
    var c := UnaryCode(2.5, 5).value;
    assert c[0] == 1.0 && c[1] == 1.0 && c[2] == 0.5 && c[3] == 0.0 && c[4] == 0.0;
    assert c == [1.0, 1.0, 0.5, 0.0, 0.0];
    var r := UnaryCodeReversed(2.5, 5).value;
    assert r[0] == 0.0 && r[1] == 0.0 && r[2] == 0.5 && r[3] == 1.0 && r[4] == 1.0;
    assert r == [0.0, 0.0, 0.5, 1.0, 1.0];
  }

  /** The exponent the log encoders feed to the unary code; exact zero is the sentinel `n`. */
  function LogExponent(b: Base2, v: real, n: nat): real
  {
    if v != 0.0 then -b.log2(Abs(v)) else n as real
  }

  /** `unary_log_encoding(v, n)`: the unary code of `-log2|v|`, negated for negative `v`. */
  function LogCode(b: Base2, v: real, n: nat): (r: Option<seq<real>>)
    ensures r.Some? ==> |r.value| == n
  {
    match UnaryCode(LogExponent(b, v, n), n)
    case None => None
    case Some(code) => Some(if v < 0.0 then Negate(code) else code)
  }

  /** `unary_log_encoding_reversed(v, n)`. */
  function LogCodeReversed(b: Base2, v: real, n: nat): (r: Option<seq<real>>)
    ensures r.Some? ==> |r.value| == n
  {
    match UnaryCodeReversed(LogExponent(b, v, n), n)
    case None => None
    case Some(code) => Some(if v < 0.0 then Negate(code) else code)
  }

  /** `unary_linear_encoding(v, n)`: the unary code of `|v * n|`, negated for negative `v`. */
  function LinearCode(v: real, n: nat): (r: seq<real>)
    ensures |r| == n
  {
    var code := UnaryCode(Abs(v * n as real), n).value;
    if v < 0.0 then Negate(code) else code
  }

  /** The log encoders succeed exactly on magnitudes below `2^(n+1)`; beyond, Python raises. */
  lemma LogCodeDefined(b: Base2, v: real, n: nat)
    requires Lawful(b)
    ensures LogCode(b, v, n).Some? <==> Abs(v) < b.pow2(n as real + 1.0)
    ensures LogCodeReversed(b, v, n).Some? <==> Abs(v) < b.pow2(n as real + 1.0)
  {
    var top := b.pow2(n as real + 1.0);
    assert b.log2(top) == n as real + 1.0;
    if v != 0.0 {
      if Abs(v) < top {
        Log2Monotone(b, Abs(v), top);
      } else if Abs(v) > top {
        Log2Monotone(b, top, Abs(v));
      }
    }
  }

  /** Exact zero encodes as the all-ones sentinel (plain) and all zeros (reversed). */
  lemma LogCodeOfZero(b: Base2, n: nat)
    ensures LogCode(b, 0.0, n) == Some(Fill(1.0, n))
    ensures LogCodeReversed(b, 0.0, n) == Some(Fill(0.0, n))
  {
    assert Trunc(n as real) == n;
    assert UnaryCode(n as real, n).value == Fill(1.0, n);
    assert UnaryCodeReversed(n as real, n).value == Fill(0.0, n);
  }

  /** A negative value encodes as the negated code of its magnitude. */
  lemma LogCodeOfNegative(b: Base2, v: real, n: nat)
    requires v > 0.0
    ensures LogCode(b, -v, n).Some? <==> LogCode(b, v, n).Some?
    ensures LogCode(b, -v, n).Some? ==> LogCode(b, -v, n).value == Negate(LogCode(b, v, n).value)
    ensures LogCodeReversed(b, -v, n).Some? ==>
      LogCodeReversed(b, -v, n).value == Negate(LogCodeReversed(b, v, n).value)
  {
    assert Abs(-v) == Abs(v);
  }

  // ---------------------------------------------------------------------------
  // Decoders

  /** `unary_log_decoding(code)`: `2^-|sum |code_i||` carrying the sign of `sum code_i`. */
  function LogDecode(b: Base2, code: seq<real>): real
  {
    b.pow2(-Abs(Sum(AbsAll(code)))) * Sign(Sum(code))
  }

  /** `unary_linear_decoding(code)`: `|sum code_i| / len(code)`; an empty code divides by zero. */
  function LinearDecode(code: seq<real>): (r: real)
    requires |code| > 0
    ensures r >= 0.0
  {
    Abs(Sum(code)) / |code| as real
  }

  /** Contribution of slot `k` holding `a` to `unary_log_decoding_reversed`. */
  function ReversedTerm(b: Base2, a: real, k: nat): real
  {
    (if a < 0.0 then -1.0 else 1.0) * (b.pow2(-(k as real)) - b.pow2(-Abs(a) - k as real))
  }

  /** What `unary_log_decoding_reversed(code)` accumulates over slots `0 .. |code|-1`. */
  function ReversedDecode(b: Base2, code: seq<real>): real
    decreases |code|
  {
    if code == [] then 0.0
    else ReversedDecode(b, code[..|code| - 1]) + ReversedTerm(b, code[|code| - 1], |code| - 1)
  }

  /** `unary_log_decoding_array(code, n)`: decode consecutive `n`-slot chunks in order; a short last chunk is decoded as it is. */
  function DecodeChunks(b: Base2, code: seq<real>, n: nat): seq<real>
    requires n >= 1
    decreases |code|
  {
    if code == [] then []
    else
      var j := MinInt(n, |code|);
      [LogDecode(b, code[..j])] + DecodeChunks(b, code[j..], n)
  }

  // ---------------------------------------------------------------------------
  // Round trips

  lemma LogCodeEntries(b: Base2, v: real, n: nat)
    requires LogExponent(b, v, n) >= 0.0
    ensures LogCode(b, v, n).Some?
    ensures Sum(AbsAll(LogCode(b, v, n).value)) == MinReal(LogExponent(b, v, n), n as real)
    ensures Sum(LogCode(b, v, n).value) ==
      if v < 0.0 then -MinReal(LogExponent(b, v, n), n as real) else MinReal(LogExponent(b, v, n), n as real)
  {
    var x := LogExponent(b, v, n);
    var u := UnaryCode(x, n).value;
    UnaryCodeSum(x, n);
    AbsAllNonNegative(u);
    if v < 0.0 {
      AbsAllNegate(u);
      SumNegate(u);
    }
  }

  /** Magnitudes in [2^-n, 1) survive `unary_log_decoding(unary_log_encoding(v, n))` exactly, sign included. */
  lemma LogRoundTrip(b: Base2, v: real, n: nat)
    requires Lawful(b)
    requires b.pow2(-(n as real)) <= Abs(v) < 1.0
    ensures LogCode(b, v, n).Some?
    ensures LogDecode(b, LogCode(b, v, n).value) == v
  {
    var x := LogExponent(b, v, n);
    Log2Monotone(b, Abs(v), 1.0);
    Log2OfOne(b);
    assert b.log2(b.pow2(-(n as real))) == -(n as real);
    if b.pow2(-(n as real)) < Abs(v) {
      Log2Monotone(b, b.pow2(-(n as real)), Abs(v));
    }
    assert 0.0 < x <= n as real;
    LogCodeEntries(b, v, n);
    var code := LogCode(b, v, n).value;
    assert Sum(AbsAll(code)) == x == Abs(x);
    assert Sign(Sum(code)) == if v < 0.0 then -1.0 else 1.0;
    assert b.pow2(-x) == Abs(v);
  }

  /** Zero and magnitudes below 2^-n saturate: they decode to `2^-n` with the value's sign (zero counts as positive). */
  lemma LogRoundTripSaturated(b: Base2, v: real, n: nat)
    requires Lawful(b)
    requires n >= 1
    requires Abs(v) < b.pow2(-(n as real))
    ensures LogCode(b, v, n).Some?
    ensures LogDecode(b, LogCode(b, v, n).value) == if v < 0.0 then -b.pow2(-(n as real)) else b.pow2(-(n as real))
  {
    var x := LogExponent(b, v, n);
    if v != 0.0 {
      Log2Monotone(b, Abs(v), b.pow2(-(n as real)));
      assert b.log2(b.pow2(-(n as real))) == -(n as real);
    }
    assert x >= n as real;
    LogCodeEntries(b, v, n);
  }

  /** Magnitude exactly 1 encodes as all zeros, whose sign is 0: the decoder returns 0. */
  lemma LogRoundTripUnit(b: Base2, v: real, n: nat)
    requires Lawful(b)
    requires Abs(v) == 1.0
    ensures LogCode(b, v, n).Some?
    ensures LogDecode(b, LogCode(b, v, n).value) == 0.0
  {
    Log2OfOne(b);
    assert LogExponent(b, v, n) == 0.0;
    LogCodeEntries(b, v, n);
  }

  /** `unary_linear_decoding(unary_linear_encoding(v, n))` is `|v|` on [-1, 1]: the sign is dropped. */
  lemma LinearRoundTrip(v: real, n: nat)
    requires n >= 1
    requires -1.0 <= v <= 1.0
    ensures LinearDecode(LinearCode(v, n)) == Abs(v)
  {
    var c := n as real;
    var a := Abs(v * c);
    ScaledMagnitude(v, c, a);
    LinearCodeSum(v, n, a);
  }

  /** `|v * c| / c == |v|` and `|v * c| <= c` for `|v| <= 1 < c`. */
  lemma ScaledMagnitude(v: real, c: real, a: real)
    requires c >= 1.0 && -1.0 <= v <= 1.0
    requires a == Abs(v * c)
    ensures a <= c && a / c == Abs(v)
  {
    if v < 0.0 {
      assert a == (-v) * c;
      assert (1.0 + v) * c >= 0.0;
    } else {
      assert a == v * c;
      assert (1.0 - v) * c >= 0.0;
    }
  }

  /** The slots of a linear code add up to `|v| * n` (when at most `n`), with `v`'s sign. */
  lemma LinearCodeSum(v: real, n: nat, a: real)
    requires n >= 1
    requires Abs(v * n as real) == a <= n as real
    ensures Abs(Sum(LinearCode(v, n))) == a
    ensures LinearDecode(LinearCode(v, n)) == a / n as real
  {
    var u := UnaryCode(a, n).value;
    UnaryCodeSum(a, n);
    if v < 0.0 {
      SumNegate(u);
    }
  }

  /** An all-zero code decodes to 0 under the reversed decoder. */
  lemma {:induction false} ReversedDecodeOfZeros(b: Base2, k: nat)
    ensures ReversedDecode(b, Fill(0.0, k)) == 0.0
  {
    if k > 0 {
      assert Fill(0.0, k)[..k - 1] == Fill(0.0, k - 1);
      ReversedDecodeOfZeros(b, k - 1);
      assert -Abs(0.0) - (k - 1) as real == -((k - 1) as real);
    }
  }

  /** `f` leading zeros then ones up to slot `n` telescope: the reversed decoder gives `2^-f - 2^-n`. */
  lemma {:induction false} ReversedDecodeTelescopes(b: Base2, f: nat, n: nat)
    requires f <= n
    ensures ReversedDecode(b, Fill(0.0, f) + Fill(1.0, n - f)) == b.pow2(-(f as real)) - b.pow2(-(n as real))
    decreases n
  {
    if n == f {
      assert Fill(0.0, f) + Fill(1.0, 0) == Fill(0.0, f);
      ReversedDecodeOfZeros(b, f);
    } else {
      var s := Fill(0.0, f) + Fill(1.0, n - f);
      assert s[..|s| - 1] == Fill(0.0, f) + Fill(1.0, n - 1 - f);
      ReversedDecodeTelescopes(b, f, n - 1);
      assert -Abs(1.0) - (n - 1) as real == -(n as real);
    }
  }

  /** The reversed code of a whole number `f < n` is `f` zeros followed by ones. */
  lemma UnaryCodeReversedOfWhole(f: nat, n: nat)
    requires f < n
    ensures UnaryCodeReversed(f as real, n) == Some(Fill(0.0, f) + Fill(1.0, n - f))
  {
    assert Trunc(f as real) == f;
    var c := UnaryCodeReversed(f as real, n).value;
    var d := Fill(0.0, f) + Fill(1.0, n - f);
    forall i | 0 <= i < n ensures c[i] == d[i] {
      if i < f {
        assert d[i] == 0.0;
      } else {
        assert d[i] == 1.0;
      }
    }
    assert c == d;
  }

  /** The reversed code of `2^-f` (whole `f < n`) decodes to `2^-f - 2^-n`: not an exact round trip. */
  lemma ReversedRoundTripOfPowerOfTwo(b: Base2, f: nat, n: nat)
    requires Lawful(b)
    requires f < n
    ensures LogCodeReversed(b, b.pow2(-(f as real)), n) == Some(Fill(0.0, f) + Fill(1.0, n - f))
    ensures ReversedDecode(b, LogCodeReversed(b, b.pow2(-(f as real)), n).value) ==
      b.pow2(-(f as real)) - b.pow2(-(n as real))
  {
    var v := b.pow2(-(f as real));
    assert v > 0.0 && Abs(v) == v;
    assert b.log2(v) == -(f as real);
    assert LogExponent(b, v, n) == f as real;
    var code := Fill(0.0, f) + Fill(1.0, n - f);
    UnaryCodeReversedOfWhole(f, n);
    assert LogCodeReversed(b, v, n) == Some(code);
    ReversedDecodeTelescopes(b, f, n);
  }

  // ---------------------------------------------------------------------------
  // Array codes

  /** Concatenation of per-element codes in order; `None` as soon as one element's encoder raises. */
  function EncodeAll(enc: real -> Option<seq<real>>, arr: seq<real>): Option<seq<real>>
    decreases |arr|
  {
    if arr == [] then Some([])
    else
      match EncodeAll(enc, arr[..|arr| - 1])
      case None => None
      case Some(p) =>
        match enc(arr[|arr| - 1])
        case None => None
        case Some(q) => Some(p + q)
  }

  /** `unary_log_encoding_array(arr, n)`. */
  function LogCodeArray(b: Base2, arr: seq<real>, n: nat): Option<seq<real>>
  {
    EncodeAll(v => LogCode(b, v, n), arr)
  }

  /** `unary_log_encoding_array_reversed(arr, n)`. */
  function LogCodeArrayReversed(b: Base2, arr: seq<real>, n: nat): Option<seq<real>>
  {
    EncodeAll(v => LogCodeReversed(b, v, n), arr)
  }

  /** `unary_linear_encoding_array(arr, n)`. */
  function LinearCodeArray(arr: seq<real>, n: nat): Option<seq<real>>
  {
    EncodeAll(v => Some(LinearCode(v, n)), arr)
  }

  /** An array code exists iff every element's code does, and then has `len(arr) * n` slots. */
  lemma {:induction false} EncodeAllLength(enc: real -> Option<seq<real>>, arr: seq<real>, n: nat)
    requires forall v :: enc(v).Some? ==> |enc(v).value| == n
    ensures EncodeAll(enc, arr).Some? <==> forall i :: 0 <= i < |arr| ==> enc(arr[i]).Some?
    ensures EncodeAll(enc, arr).Some? ==> |EncodeAll(enc, arr).value| == |arr| * n
    decreases |arr|
  {
    if arr != [] {
      var k := |arr|;
      var init := arr[..k - 1];
      EncodeAllLength(enc, init, n);
      AllEncodedSnoc(enc, arr, init);
      assert (k - 1) * n + n == k * n;
    }
  }

  lemma AllEncodedSnoc(enc: real -> Option<seq<real>>, arr: seq<real>, init: seq<real>)
    requires arr != [] && init == arr[..|arr| - 1]
    ensures (forall i :: 0 <= i < |arr| ==> enc(arr[i]).Some?) <==>
      (forall i :: 0 <= i < |init| ==> enc(init[i]).Some?) && enc(arr[|arr| - 1]).Some?
  {
    assert forall i :: 0 <= i < |init| ==> init[i] == arr[i];
  }

  /** Encoding a concatenation is concatenating the encodings (the 16x river context relies on it). */
  lemma {:induction false} EncodeAllAppend(enc: real -> Option<seq<real>>, a: seq<real>, c: seq<real>)
    ensures EncodeAll(enc, a + c).Some? <==> EncodeAll(enc, a).Some? && EncodeAll(enc, c).Some?
    ensures EncodeAll(enc, a + c).Some? ==>
      EncodeAll(enc, a + c).value == EncodeAll(enc, a).value + EncodeAll(enc, c).value
    decreases |c|
  {
    if c == [] {
      assert a + c == a;
    } else {
      var k := |c|;
      assert (a + c)[..|a + c| - 1] == a + c[..k - 1];
      assert (a + c)[|a + c| - 1] == c[k - 1];
      EncodeAllAppend(enc, a, c[..k - 1]);
      if EncodeAll(enc, a + c).Some? {
        assert EncodeAll(enc, a + c).value
          == EncodeAll(enc, a).value + EncodeAll(enc, c[..k - 1]).value + enc(c[k - 1]).value;
      }
    }
  }

  /** Decoding an array code chunk by chunk gives back the array when each element's code decodes to it. */
  lemma {:induction false} DecodeChunksOfEncodeAll(b: Base2, enc: real -> Option<seq<real>>, arr: seq<real>, n: nat)
    requires n >= 1
    requires forall v :: enc(v).Some? ==> |enc(v).value| == n
    requires forall i :: 0 <= i < |arr| ==> enc(arr[i]).Some? && LogDecode(b, enc(arr[i]).value) == arr[i]
    ensures EncodeAll(enc, arr).Some?
    ensures DecodeChunks(b, EncodeAll(enc, arr).value, n) == arr
    decreases |arr|
  {
    EncodeAllLength(enc, arr, n);
    if arr != [] {
      var t := arr[1..];
      EncodeAllHeadTail(enc, arr);
      var q := enc(arr[0]).value;
      var rest := EncodeAll(enc, t).value;
      DecodedTail(b, enc, arr);
      DecodeChunksOfEncodeAll(b, enc, t, n);
      DecodeChunksCons(b, q, rest, n, arr[0], t);
      HeadTail(arr);
    }
  }

  lemma DecodedTail(b: Base2, enc: real -> Option<seq<real>>, arr: seq<real>)
    requires arr != []
    requires forall i :: 0 <= i < |arr| ==> enc(arr[i]).Some? && LogDecode(b, enc(arr[i]).value) == arr[i]
    ensures forall i :: 0 <= i < |arr[1..]| ==> enc(arr[1..][i]).Some? && LogDecode(b, enc(arr[1..][i]).value) == arr[1..][i]
  {
    forall i | 0 <= i < |arr[1..]|
      ensures enc(arr[1..][i]).Some? && LogDecode(b, enc(arr[1..][i]).value) == arr[1..][i]
    {
      assert arr[1..][i] == arr[i + 1];
    }
  }

  lemma HeadTail<T>(arr: seq<T>)
    requires arr != []
    ensures arr == [arr[0]] + arr[1..]
  {
  }

  /** A non-empty array codes as the code of its head followed by the code of its tail. */
  lemma EncodeAllHeadTail(enc: real -> Option<seq<real>>, arr: seq<real>)
    requires arr != [] && EncodeAll(enc, arr).Some?
    ensures enc(arr[0]).Some? && EncodeAll(enc, arr[1..]).Some?
    ensures EncodeAll(enc, arr).value == enc(arr[0]).value + EncodeAll(enc, arr[1..]).value
  {
    var h, t := [arr[0]], arr[1..];
    assert arr == h + t;
    EncodeAllAppend(enc, h, t);
    assert h[..0] == [];
    assert EncodeAll(enc, h).Some? ==> EncodeAll(enc, h).value == [] + enc(arr[0]).value;
  }

  /** Decoding a full chunk that decodes to `x`, followed by code that decodes to `t`. */
  lemma DecodeChunksCons(b: Base2, q: seq<real>, rest: seq<real>, n: nat, x: real, t: seq<real>)
    requires n >= 1 && |q| == n && LogDecode(b, q) == x && DecodeChunks(b, rest, n) == t
    ensures DecodeChunks(b, q + rest, n) == [x] + t
  {
    var code := q + rest;
    assert code[..n] == q && code[n..] == rest;
  }

  /** `unary_log_decoding_array(unary_log_encoding_array(vs, n), n) == vs` for magnitudes in [2^-n, 1). */
  lemma LogArrayRoundTrip(b: Base2, vs: seq<real>, n: nat)
    requires Lawful(b)
    requires n >= 1
    requires forall i :: 0 <= i < |vs| ==> b.pow2(-(n as real)) <= Abs(vs[i]) < 1.0
    ensures LogCodeArray(b, vs, n).Some?
    ensures |LogCodeArray(b, vs, n).value| == |vs| * n
    ensures DecodeChunks(b, LogCodeArray(b, vs, n).value, n) == vs
  {
    var enc := v => LogCode(b, v, n);
    forall i | 0 <= i < |vs| ensures enc(vs[i]).Some? && LogDecode(b, enc(vs[i]).value) == vs[i] {
      LogRoundTrip(b, vs[i], n);
    }
    EncodeAllLength(enc, vs, n);
    DecodeChunksOfEncodeAll(b, enc, vs, n);
  }

  // ---------------------------------------------------------------------------
  // The imperative encoders and decoders, proved against the functions above

  /** `unary_encoding`: fill a zero array with ones, then the fraction slot. */
  method UnaryEncoding(num: real, n: nat) returns (code: Option<seq<real>>)
    ensures code == UnaryCode(num, n)
  {
    var arr := new real[n](_ => 0.0);
    var t := Trunc(num);
    var m := MinInt(t, n);
    var i := 0;
    while i < m
      invariant 0 <= i <= n && (i <= m || i == 0)
      invariant forall j :: 0 <= j < i ==> arr[j] == 1.0
      invariant forall j :: i <= j < n ==> arr[j] == 0.0
    {
      arr[i] := 1.0;
      i := i + 1;
    }
    if m < n {
      var slot := if m < 0 then m + n else m;
      if slot < 0 {
        assert m < -(n as int);
        return None;
      }
      arr[slot] := num - t as real;
    }
    assert i == m || (i == 0 && m <= 0);
    var want := UnaryCode(num, n).value;
    forall j | 0 <= j < n ensures arr[j] == want[j] {
      if m < n && j == Slot(m, n) {
      } else if j < m {
      }
    }
    assert arr[..] == want;
    code := Some(arr[..]);
  }

  /** `unary_encoding_reversed`: fill a ones array with zeros, then the complemented fraction slot. */
  method UnaryEncodingReversed(num: real, n: nat) returns (code: Option<seq<real>>)
    ensures code == UnaryCodeReversed(num, n)
  {
    var arr := new real[n](_ => 1.0);
    var t := Trunc(num);
    var m := MinInt(t, n);
    var i := 0;
    while i < m
      invariant 0 <= i <= n && (i <= m || i == 0)
      invariant forall j :: 0 <= j < i ==> arr[j] == 0.0
      invariant forall j :: i <= j < n ==> arr[j] == 1.0
    {
      arr[i] := 0.0;
      i := i + 1;
    }
    if m < n {
      var slot := if m < 0 then m + n else m;
      if slot < 0 {
        assert m < -(n as int);
        return None;
      }
      arr[slot] := 1.0 - (num - t as real);
    }
    assert i == m || (i == 0 && m <= 0);
    var want := UnaryCodeReversed(num, n).value;
    forall j | 0 <= j < n ensures arr[j] == want[j] {
      if m < n && j == Slot(m, n) {
      } else if j < m {
      }
    }
    assert arr[..] == want;
    code := Some(arr[..]);
  }

  /** `unary_log_encoding`. */
  method UnaryLogEncoding(b: Base2, num: real, n: nat) returns (encoded: Option<seq<real>>)
    ensures encoded == LogCode(b, num, n)
  {
    var x := if num != 0.0 then -b.log2(Abs(num)) else n as real;
    encoded := UnaryEncoding(x, n);
    if encoded.Some? && num < 0.0 {
      encoded := Some(Negate(encoded.value));
    }
  }

  /** `unary_log_encoding_reversed`. */
  method UnaryLogEncodingReversed(b: Base2, num: real, n: nat) returns (encoded: Option<seq<real>>)
    ensures encoded == LogCodeReversed(b, num, n)
  {
    var x := if num != 0.0 then -b.log2(Abs(num)) else n as real;
    encoded := UnaryEncodingReversed(x, n);
    if encoded.Some? && num < 0.0 {
      encoded := Some(Negate(encoded.value));
    }
  }

  /** `unary_linear_encoding`. */
  method UnaryLinearEncoding(num: real, n: nat) returns (encoded: seq<real>)
    ensures encoded == LinearCode(num, n)
  {
    var x := Abs(num * n as real);
    var code := UnaryEncoding(x, n);
    encoded := code.value;
    if num < 0.0 {
      encoded := Negate(encoded);
    }
  }

  /** `unary_log_encoding_array`: extend a list with each element's code. */
  method UnaryLogEncodingArray(b: Base2, arr: seq<real>, n: nat) returns (ret: Option<seq<real>>)
    ensures ret == LogCodeArray(b, arr, n)
  {
    var acc: seq<real> := [];
    for i := 0 to |arr|
      invariant LogCodeArray(b, arr[..i], n) == Some(acc)
    {
      var code := UnaryLogEncoding(b, arr[i], n);
      assert arr[..i + 1][..i] == arr[..i];
      if code.None? {
        PrefixFailure(v => LogCode(b, v, n), arr, i + 1);
        return None;
      }
      acc := acc + code.value;
    }
    assert arr[..|arr|] == arr;
    ret := Some(acc);
  }

  /** `unary_log_encoding_array_reversed`. */
  method UnaryLogEncodingArrayReversed(b: Base2, arr: seq<real>, n: nat) returns (ret: Option<seq<real>>)
    ensures ret == LogCodeArrayReversed(b, arr, n)
  {
    var acc: seq<real> := [];
    for i := 0 to |arr|
      invariant LogCodeArrayReversed(b, arr[..i], n) == Some(acc)
    {
      var code := UnaryLogEncodingReversed(b, arr[i], n);
      assert arr[..i + 1][..i] == arr[..i];
      if code.None? {
        PrefixFailure(v => LogCodeReversed(b, v, n), arr, i + 1);
        return None;
      }
      acc := acc + code.value;
    }
    assert arr[..|arr|] == arr;
    ret := Some(acc);
  }

  /** `unary_linear_encoding_array`. */
  method UnaryLinearEncodingArray(arr: seq<real>, n: nat) returns (ret: seq<real>)
    ensures LinearCodeArray(arr, n) == Some(ret)
  {
    ret := [];
    for i := 0 to |arr|
      invariant LinearCodeArray(arr[..i], n) == Some(ret)
    {
      var code := UnaryLinearEncoding(arr[i], n);
      assert arr[..i + 1][..i] == arr[..i];
      ret := ret + code;
    }
    assert arr[..|arr|] == arr;
  }

  /** Once a prefix fails to encode, so does the whole array. */
  lemma {:induction false} PrefixFailure(enc: real -> Option<seq<real>>, arr: seq<real>, k: nat)
    requires k <= |arr|
    requires EncodeAll(enc, arr[..k]).None?
    ensures EncodeAll(enc, arr).None?
    decreases |arr| - k
  {
    if k < |arr| {
      assert arr[..k + 1][..k] == arr[..k];
      PrefixFailure(enc, arr, k + 1);
    } else {
      assert arr[..k] == arr;
    }
  }

  /** `unary_log_decoding_reversed`: accumulate one term per slot. */
  method UnaryLogDecodingReversed(b: Base2, arr: seq<real>) returns (sum: real)
    ensures sum == ReversedDecode(b, arr)
  {
    var k := 0;
    sum := 0.0;
    while k < |arr|
      invariant 0 <= k <= |arr|
      invariant sum == ReversedDecode(b, arr[..k])
    {
      var a := arr[k];
      var sgn := 1.0;
      if a < 0.0 {
        sgn := -1.0;
      }
      sum := sum + sgn * (-b.pow2(-Abs(a) - k as real) + b.pow2(-(k as real)));
      assert arr[..k + 1][..k] == arr[..k];
      k := k + 1;
    }
    assert arr[..k] == arr;
  }

  /** `unary_log_decoding_array`: decode consecutive chunks of `n` slots. */
  method UnaryLogDecodingArray(b: Base2, arr: seq<real>, n: nat) returns (ret: seq<real>)
    requires n >= 1
    ensures ret == DecodeChunks(b, arr, n)
  {
    ret := [];
    var i := 0;
    while i < |arr|
      invariant 0 <= i <= |arr|
      invariant ret + DecodeChunks(b, arr[i..], n) == DecodeChunks(b, arr, n)
    {
      var j := MinInt(i + n, |arr|);
      var part := arr[i..j];
      DecodeChunksFrom(b, arr, i, n);
      assert (ret + [LogDecode(b, part)]) + DecodeChunks(b, arr[j..], n) == ret + DecodeChunks(b, arr[i..], n);
      ret := ret + [LogDecode(b, part)];
      i := j;
    }
    assert ret + [] == ret;
  }

  /** The chunks from position `i` on: the one starting at `i`, then those after it. */
  lemma DecodeChunksFrom(b: Base2, arr: seq<real>, i: nat, n: nat)
    requires n >= 1 && i < |arr|
    ensures i < MinInt(i + n, |arr|) <= |arr|
    ensures DecodeChunks(b, arr[i..], n) ==
      [LogDecode(b, arr[i..MinInt(i + n, |arr|)])] + DecodeChunks(b, arr[MinInt(i + n, |arr|)..], n)
  {
    var j := MinInt(i + n, |arr|);
    assert arr[i..][..MinInt(n, |arr| - i)] == arr[i..j];
    assert arr[i..][MinInt(n, |arr| - i)..] == arr[j..];
  }

  /** `relativization`: subtract the mean in place and return it. */
  method Relativization(arr: array<real>) returns (absolute: real)
    requires arr.Length > 0
    modifies arr
    ensures absolute == Mean(old(arr[..]))
    ensures arr[..] == Shift(old(arr[..]), absolute)
  {
    absolute := Mean(arr[..]);
    forall i | 0 <= i < arr.Length {
      arr[i] := arr[i] - absolute;
    }
  }
}
