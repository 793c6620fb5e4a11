/**
 The offline weight conversions: symmetric int8 quantisation with one scale per tensor, and the block-wise
 rescaling of fp8 matrices. Arithmetic is exact.
 */
module Quantize {
  import opened Machine
  import opened Options
  import opened Arithmetic

  // ----- Rounding

  /** `np.round`: to the nearest integer, halves to the even neighbour. */
  function Round(x: real): int {
    var below := x.Floor;
    var rest := x - below as real;
    if rest < 0.5 || (rest == 0.5 && below % 2 == 0) then below else below + 1
  }

  lemma RoundIsNear(x: real)
    ensures -0.5 <= x - Round(x) as real <= 0.5
  {
  }

  /** Rounding stays within any integer bounds that hold before it. */
  lemma RoundStaysInside(x: real, low: int, high: int)
    requires low as real <= x <= high as real
    ensures low <= Round(x) <= high
  {
    RoundIsNear(x);
    assert Round(x) as real < high as real + 1.0 && Round(x) as real > low as real - 1.0;
  }

  lemma RoundOfInteger(n: int)
    ensures Round(n as real) == n
  {
  }

  /** An integer within half of `x`, or at half and even, is what `x` rounds to. */
  lemma RoundIsNearest(x: real, n: int)
    requires -0.5 < x - n as real < 0.5 || (-0.5 <= x - n as real <= 0.5 && n % 2 == 0)
    ensures Round(x) == n
  {
    RoundIsNear(x);
  }

  lemma RoundIsOdd(x: real)
    ensures Round(-x) == -Round(x)
  {
    RoundIsNear(x);
    RoundIsNearest(-x, -Round(x));
  }

  // ----- int8, one scale per tensor

  /** `np.abs(flat).max()`, or 0 for an empty tensor. */
  function MaxAbs(flat: seq<real>): (m: real)
    ensures m >= 0.0
    ensures forall i :: 0 <= i < |flat| ==> Abs(flat[i]) <= m
    ensures m == 0.0 || exists i :: 0 <= i < |flat| && Abs(flat[i]) == m
  {
    if flat == [] then 0.0
    else
      var rest := MaxAbs(flat[..|flat| - 1]);
      if Abs(flat[|flat| - 1]) > rest then Abs(flat[|flat| - 1]) else rest
  }

  function Clip(n: int): int { if n < -127 then -127 else if n > 127 then 127 else n }

  function ScaleFor(maxAbs: real): (scale: real)
    requires maxAbs >= 0.0
    ensures scale > 0.0
  {
    if maxAbs > 0.0 then maxAbs / 127.0 else 1.0
  }

  datatype Quantized = Quantized(scale: real, codes: seq<int>)

  /** A value in units of the scale. */
  function InSteps(x: real, scale: real): real
    requires scale > 0.0
  {
    x / scale
  }

  /** `i8_value * scale`. */
  function Restore(code: int, scale: real): real { code as real * scale }

  /** `quantize_int8_per_tensor`. */
  function Quantize(flat: seq<real>): (q: Quantized)
    ensures q.scale > 0.0 && |q.codes| == |flat|
  {
    var scale := ScaleFor(MaxAbs(flat));
    Quantized(scale, seq(|flat|, i requires 0 <= i < |flat| => Clip(Round(InSteps(flat[i], scale)))))
  }

  /** Every element restored. */
  function Dequantize(q: Quantized): (flat: seq<real>)
    ensures |flat| == |q.codes|
  {
    seq(|q.codes|, i requires 0 <= i < |q.codes| => Restore(q.codes[i], q.scale))
  }

  lemma NonNegativeProduct(a: real, b: real)
    requires a >= 0.0 && b >= 0.0
    ensures a * b >= 0.0
  {
  }

  /** A value no larger than the maximum is at most 127 steps. */
  lemma StepsInRange(x: real, maxAbs: real)
    requires Abs(x) <= maxAbs
    ensures -127.0 <= InSteps(x, ScaleFor(maxAbs)) <= 127.0
  {
    var scale := ScaleFor(maxAbs);
    var y := x / scale;
    assert x == y * scale;
    if maxAbs > 0.0 {
      assert maxAbs == 127.0 * scale;
      if y > 127.0 {
        NonNegativeProduct(y - 127.0, scale);
      }
      if y < -127.0 {
        NonNegativeProduct(-127.0 - y, scale);
      }
    }
  }

  /** Half a step off in steps is half the scale off in value. */
  lemma ScaledError(x: real, scale: real, code: int)
    requires scale > 0.0 && -0.5 <= InSteps(x, scale) - code as real <= 0.5
    ensures Abs(x - Restore(code, scale)) <= scale / 2.0
  {
    var d := x / scale - code as real;
    assert x - code as real * scale == d * scale;
    NonNegativeProduct(0.5 - d, scale);
    NonNegativeProduct(0.5 + d, scale);
  }

  lemma StepsOfRestored(code: int, scale: real)
    requires scale > 0.0
    ensures InSteps(Restore(code, scale), scale) == code as real
  {
  }

  /** For every tensor: the clip never changes a rounded code, codes stay in [-127, 127], and every value is
      reconstructed to within half a scale step, which is max_abs / 254 unless the tensor is zero. */
  lemma QuantizationError(flat: seq<real>, i: nat)
    requires i < |flat|
    ensures var q := Quantize(flat);
      && q.codes[i] == Round(InSteps(flat[i], q.scale)) && -127 <= q.codes[i] <= 127
      && Abs(flat[i] - Dequantize(q)[i]) <= q.scale / 2.0
      && q.scale / 2.0 == if MaxAbs(flat) > 0.0 then MaxAbs(flat) / 254.0 else 0.5
  {
    hide Round, MaxAbs, InSteps, Restore;
    var q := Quantize(flat);
    assert Abs(flat[i]) <= MaxAbs(flat);
    StepsInRange(flat[i], MaxAbs(flat));
    RoundStaysInside(InSteps(flat[i], q.scale), -127, 127);
    RoundIsNear(InSteps(flat[i], q.scale));
    ScaledError(flat[i], q.scale, q.codes[i]);
  }

  /** Zero is always exact, and so is the value the scale was taken from: the range is used in full. */
  lemma ExtremesAreExact(flat: seq<real>, i: nat)
    requires i < |flat| && (flat[i] == 0.0 || Abs(flat[i]) == MaxAbs(flat))
    ensures var q := Quantize(flat);
      && Dequantize(q)[i] == flat[i]
      && q.codes[i] == if flat[i] == 0.0 then 0 else if flat[i] > 0.0 then 127 else -127
  {
    hide Round, MaxAbs, InSteps;
    var q := Quantize(flat);
    var n := if flat[i] == 0.0 then 0 else if flat[i] > 0.0 then 127 else -127;
    assert flat[i] == Restore(n, q.scale);
    StepsOfRestored(n, q.scale);
    RoundOfInteger(n);
  }

  lemma RestoredBelow(code: int, maxAbs: real)
    requires maxAbs >= 0.0 && -127 <= code <= 127 && (maxAbs == 0.0 ==> code == 0)
    ensures Abs(Restore(code, ScaleFor(maxAbs))) <= maxAbs
  {
    var c, scale := code as real, ScaleFor(maxAbs);
    NonNegativeProduct(127.0 - c, scale);
    NonNegativeProduct(127.0 + c, scale);
  }

  /** The largest magnitude of a reconstructed tensor is that of the original. */
  lemma MaxSurvives(flat: seq<real>)
    ensures MaxAbs(Dequantize(Quantize(flat))) == MaxAbs(flat)
  {
    hide Round, ScaleFor, Clip, InSteps, Restore, MaxAbs;
    var q := Quantize(flat);
    var back := Dequantize(q);
    forall i | 0 <= i < |back|
      ensures Abs(back[i]) <= MaxAbs(flat)
    {
      QuantizationError(flat, i);
      if MaxAbs(flat) == 0.0 {
        ExtremesAreExact(flat, i);
      }
      RestoredBelow(q.codes[i], MaxAbs(flat));
    }
    if MaxAbs(flat) > 0.0 {
      var i :| 0 <= i < |flat| && Abs(flat[i]) == MaxAbs(flat);
      ExtremesAreExact(flat, i);
      assert Abs(back[i]) == MaxAbs(flat);
    }
  }

  /** Quantising a reconstructed tensor reproduces it: same scale, same codes. */
  lemma QuantizeIsStable(flat: seq<real>)
    ensures Quantize(Dequantize(Quantize(flat))) == Quantize(flat)
  {
    hide Round, ScaleFor, InSteps, Restore, MaxAbs;
    var q := Quantize(flat);
    var back := Dequantize(q);
    MaxSurvives(flat);
    forall i | 0 <= i < |flat|
      ensures Quantize(back).codes[i] == q.codes[i]
    {
      QuantizationError(flat, i);
      StepsOfRestored(q.codes[i], q.scale);
      RoundOfInteger(q.codes[i]);
    }
    assert Quantize(back).codes == q.codes;
  }

  lemma {:induction false} MaxAbsOfNegated(flat: seq<real>, negated: seq<real>)
    requires |negated| == |flat| && forall i :: 0 <= i < |flat| ==> negated[i] == -flat[i]
    ensures MaxAbs(negated) == MaxAbs(flat)
  {
    if flat != [] {
      MaxAbsOfNegated(flat[..|flat| - 1], negated[..|flat| - 1]);
    }
  }

  lemma StepsOfNegated(x: real, scale: real)
    requires scale > 0.0
    ensures InSteps(-x, scale) == -InSteps(x, scale)
  {
  }

  /** Symmetric: the codes of the negated tensor are the negated codes, under the same scale. */
  lemma QuantizeIsSymmetric(flat: seq<real>, negated: seq<real>)
    requires |negated| == |flat| && forall i :: 0 <= i < |flat| ==> negated[i] == -flat[i]
    ensures Quantize(negated).scale == Quantize(flat).scale
    ensures forall i :: 0 <= i < |flat| ==> Quantize(negated).codes[i] == -Quantize(flat).codes[i]
  {
    hide Round, ScaleFor, InSteps, MaxAbs;
    MaxAbsOfNegated(flat, negated);
    var scale := Quantize(flat).scale;
    forall i | 0 <= i < |flat|
      ensures Quantize(negated).codes[i] == -Quantize(flat).codes[i]
    {
      QuantizationError(flat, i);
      QuantizationError(negated, i);
      StepsOfNegated(flat[i], scale);
      RoundIsOdd(InSteps(flat[i], scale));
    }
  }

  // ----- fp8, one scale per square block

  function Scaled(x: real, s: real): real { x * s }

  /** Scaling multiplies, and tile `b` of an axis is the indices from `b * block` up to the next tile. */
  lemma ScaledAndTile(x: real, s: real, at: nat, block: nat, b: nat)
    requires block > 0
    ensures Scaled(x, s) == x * s
    ensures Tile(at, block) == b <==> b * block <= at < b * block + block
  {
    TileOf(at, at + 1, block, b);
    Remainder(at, block);
    if b * block <= at < b * block + block {
      Quotient(at, block, at - b * block, b);
    }
  }

  /** `out[r0:r1, c0:c1] *= s`. */
  method ScaleTile(out: array2<real>, r0: nat, r1: nat, c0: nat, c1: nat, s: real)
    requires r0 <= r1 <= out.Length0 && c0 <= c1 <= out.Length1
    modifies out
    ensures forall r, c :: 0 <= r < out.Length0 && 0 <= c < out.Length1 ==>
      out[r, c] == if r0 <= r < r1 && c0 <= c < c1 then Scaled(old(out[r, c]), s) else old(out[r, c])
  {
    hide Scaled;
    for i := r0 to r1
      invariant forall r, c :: 0 <= r < out.Length0 && 0 <= c < out.Length1 ==>
        out[r, c] == if r0 <= r < i && c0 <= c < c1 then Scaled(old(out[r, c]), s) else old(out[r, c])
    {
      for j := c0 to c1
        invariant forall r, c :: 0 <= r < out.Length0 && 0 <= c < out.Length1 ==>
          out[r, c] == if (r0 <= r < i && c0 <= c < c1) || (r == i && c0 <= c < j) then Scaled(old(out[r, c]), s) else old(out[r, c])
      {
        out[i, j] := Scaled(out[i, j], s);
      }
    }
  }

  /** The tile an index falls in. */
  function Tile(at: nat, block: nat): nat
    requires block > 0
  {
    at / block
  }

  lemma TileOf(at: nat, n: nat, block: nat, b: nat)
    requires block > 0 && at < n
    ensures Tile(at, block) < CeilDiv(n, block)
    ensures b * block <= at < Min(b * block + block, n) <==> Tile(at, block) == b
  {
    Remainder(at, block);
    if b * block <= at < b * block + block {
      Quotient(at, block, at - b * block, b);
    }
    TileCount(at, n, block);
  }

  lemma Remainder(x: nat, base: nat)
    requires base > 0
    ensures 0 <= x / base && x / base * base <= x < x / base * base + base
  {
  }

  lemma TileCount(at: nat, n: nat, block: nat)
    requires block > 0 && at < n
    ensures at / block < CeilDiv(n, block)
  {
    Remainder(at, block);
    Remainder(n + block - 1, block);
    var q, k := at / block, CeilDiv(n, block);
    MulMonotone(Min(q, k), q, block);
  }

  lemma TileStart(n: nat, block: nat, b: nat)
    requires block > 0 && b < CeilDiv(n, block)
    ensures b * block <= n
  {
    var m := n + block - 1;
    var k, s := m / block, m % block;
    assert m == k * block + s;
    assert (b + 1) * block <= k * block;
    assert (b + 1) * block == b * block + block;
  }

  /** One row of tiles: the inner loop of `dequant_fp8_e4m3_blockwise`. */
  method ScaleTileRow(out: array2<real>, scaleInv: array2<real>, block: nat, br: nat)
    requires block > 0 && out != scaleInv && br < scaleInv.Length0
    requires scaleInv.Length0 == CeilDiv(out.Length0, block) && scaleInv.Length1 == CeilDiv(out.Length1, block)
    modifies out
    ensures forall r, c :: 0 <= r < out.Length0 && 0 <= c < out.Length1 ==>
      && Tile(c, block) < scaleInv.Length1
      && out[r, c] == if Tile(r, block) == br then Scaled(old(out[r, c]), scaleInv[br, Tile(c, block)]) else old(out[r, c])
  {
    hide Tile, CeilDiv, Scaled;
    var rows, cols := out.Length0, out.Length1;
    TileStart(rows, block, br);
    var r0 := br * block;
    var r1 := Min(r0 + block, rows);
    forall r | 0 <= r < rows
      ensures r0 <= r < r1 <==> Tile(r, block) == br
    {
      TileOf(r, rows, block, br);
    }
    forall c | 0 <= c < cols
      ensures Tile(c, block) < scaleInv.Length1
    {
      TileOf(c, cols, block, 0);
    }
    for bc := 0 to scaleInv.Length1
      invariant forall r, c :: 0 <= r < rows && 0 <= c < cols ==>
        out[r, c] == if Tile(r, block) == br && Tile(c, block) < bc
                     then Scaled(old(out[r, c]), scaleInv[br, Tile(c, block)]) else old(out[r, c])
    {
      TileStart(cols, block, bc);
      var c0 := bc * block;
      var c1 := Min(c0 + block, cols);
      forall c | 0 <= c < cols
        ensures c0 <= c < c1 <==> Tile(c, block) == bc
      {
        TileOf(c, cols, block, bc);
      }
      ScaleTile(out, r0, r1, c0, c1, scaleInv[br, bc]);
    }
  }

  /** `dequant_fp8_e4m3_blockwise`: every element is decoded and multiplied by the scale of its own block, once;
      None is the error for a scale grid of the wrong shape. `lut` decodes one fp8 byte. */
  method DequantBlockwise(q: array2<Byte>, scaleInv: array2<real>, block: nat, lut: Byte -> real) returns (out: Option<array2<real>>)
    requires block > 0
    ensures out.Some? <==> scaleInv.Length0 == CeilDiv(q.Length0, block) && scaleInv.Length1 == CeilDiv(q.Length1, block)
    ensures out.Some? ==>
      && fresh(out.value) && out.value.Length0 == q.Length0 && out.value.Length1 == q.Length1
      && forall r, c :: 0 <= r < q.Length0 && 0 <= c < q.Length1 ==>
           && Tile(r, block) < scaleInv.Length0 && Tile(c, block) < scaleInv.Length1
           && out.value[r, c] == Scaled(lut(q[r, c]), scaleInv[Tile(r, block), Tile(c, block)])
  {
    hide Tile, CeilDiv, Scaled;
    var rows, cols := q.Length0, q.Length1;
    if scaleInv.Length0 != CeilDiv(rows, block) || scaleInv.Length1 != CeilDiv(cols, block) {
      return None;
    }
    var o := new real[rows, cols]((r, c) requires 0 <= r < rows && 0 <= c < cols reads q => lut(q[r, c]));
    forall at: nat
      ensures (at < rows ==> Tile(at, block) < scaleInv.Length0) && (at < cols ==> Tile(at, block) < scaleInv.Length1)
    {
      if at < rows {
        TileOf(at, rows, block, 0);
      }
      if at < cols {
        TileOf(at, cols, block, 0);
      }
    }
    for br := 0 to scaleInv.Length0
      invariant forall r, c :: 0 <= r < rows && 0 <= c < cols ==>
        o[r, c] == if Tile(r, block) < br then Scaled(lut(q[r, c]), scaleInv[Tile(r, block), Tile(c, block)]) else lut(q[r, c])
    {
      ScaleTileRow(o, scaleInv, block, br);
    }
    out := Some(o);
  }
}
