/**
 Q8_0 dense weights. A matrix is one flat stream of weights packed 32 to a 34-byte block; rows need not
 start on a block boundary and the last block may be partly used. Every way of reading the matrix is
 proved to show the same full decode. The float operations are parameters, so the agreement is bit for
 bit: same operations, same order, whatever the rounding.
 */
module Q8Views {
  import opened Machine
  import opened Arithmetic
  import opened Options

  const BLOCK_ELEMS: nat := 32
  const BLOCK_BYTES: nat := 34

  /** The f32 operations the readers use: widening an f16 bit pattern, scaling a signed byte by it, and
      `acc + w * x`. */
  datatype Arith<!T> = Arith(zero: T, half: nat -> T, scaled: (T, int) -> T, mulAdd: (T, T, T) -> T)

  function Signed(b: Byte): int { if b < 128 then b else b - 256 }

  /** The block's f16 scale, little-endian. */
  function ScaleBits(block: seq<Byte>): nat
    requires |block| == BLOCK_BYTES
  {
    var low: nat, high: nat := block[0], block[1];
    low + 256 * high
  }

  function BlockCount(n: nat): nat { CeilDiv(n, BLOCK_ELEMS) }

  /** Weight `i` of one block: a little-endian f16 scale, then 32 signed bytes. */
  function BlockWeight<T>(ar: Arith<T>, block: seq<Byte>, i: nat): T
    requires |block| == BLOCK_BYTES && i < BLOCK_ELEMS
  {
    ar.scaled(ar.half(ScaleBits(block)), Signed(block[2 + i]))
  }

  function Block(bytes: seq<Byte>, b: nat): (r: seq<Byte>)
    requires (b + 1) * BLOCK_BYTES <= |bytes|
    ensures |r| == BLOCK_BYTES
  {
    bytes[b * BLOCK_BYTES..b * BLOCK_BYTES + BLOCK_BYTES]
  }

  /** Are the blocks of the weights before `n` all present? */
  predicate Holds(bytes: seq<Byte>, n: nat) { BlockCount(n) * BLOCK_BYTES <= |bytes| }

  lemma HoldsBlock(bytes: seq<Byte>, n: nat, k: nat)
    requires Holds(bytes, n) && k < n
    ensures (k / BLOCK_ELEMS + 1) * BLOCK_BYTES <= |bytes|
  {
    assert k / BLOCK_ELEMS + 1 <= BlockCount(n);
  }

  /** Weight `k` of the stream. */
  function Weight<T>(ar: Arith<T>, bytes: seq<Byte>, k: nat): T
    requires (k / BLOCK_ELEMS + 1) * BLOCK_BYTES <= |bytes|
  {
    BlockWeight(ar, Block(bytes, k / BLOCK_ELEMS), k % BLOCK_ELEMS)
  }

  /** The full decode of the first `n` weights. */
  function Decode<T>(ar: Arith<T>, bytes: seq<Byte>, n: nat): (r: seq<T>)
    requires Holds(bytes, n)
    ensures |r| == n
  {
    seq(n, k requires 0 <= k < n => HoldsBlock(bytes, n, k); Weight(ar, bytes, k))
  }

  /** `dequantize_q8_0_block`. */
  method DecodeBlock<T>(ar: Arith<T>, src: seq<Byte>, dst: array<T>)
    requires |src| == BLOCK_BYTES && dst.Length == BLOCK_ELEMS
    modifies dst
    ensures forall i :: 0 <= i < BLOCK_ELEMS ==> dst[i] == BlockWeight(ar, src, i)
  {
    var d := ar.half(ScaleBits(src));
    for i := 0 to BLOCK_ELEMS
      invariant forall j :: 0 <= j < i ==> dst[j] == BlockWeight(ar, src, j)
    {
      dst[i] := ar.scaled(d, Signed(src[2 + i]));
    }
  }

  /** Block `b` decoded is the stretch of the stream it covers. */
  lemma BlockIsStretch<T>(ar: Arith<T>, bytes: seq<Byte>, b: nat, i: nat)
    requires (b + 1) * BLOCK_BYTES <= |bytes| && i < BLOCK_ELEMS
    ensures (b * BLOCK_ELEMS + i) / BLOCK_ELEMS == b
    ensures BlockWeight(ar, Block(bytes, b), i) == Weight(ar, bytes, b * BLOCK_ELEMS + i)
  {
    assert (b * BLOCK_ELEMS + i) % BLOCK_ELEMS == i;
  }

  /** `dequantize_q8_0_to_f32`: decode whole blocks, then truncate. */
  method DecodeAll<T>(ar: Arith<T>, bytes: seq<Byte>, n: nat) returns (dst: seq<T>)
    requires Holds(bytes, n)
    ensures dst == Decode(ar, bytes, n)
  {
    hide Decode, BlockWeight, Block;
    var blocks := BlockCount(n);
    var chunk := new T[BLOCK_ELEMS](_ => ar.zero);
    dst := [];
    for b := 0 to blocks
      invariant |dst| == b * BLOCK_ELEMS
      invariant forall k :: 0 <= k < |dst| && k < n ==> dst[k] == Decode(ar, bytes, n)[k]
    {
      DecodeBlock(ar, Block(bytes, b), chunk);
      forall i | 0 <= i < BLOCK_ELEMS && b * BLOCK_ELEMS + i < n
        ensures chunk[i] == Decode(ar, bytes, n)[b * BLOCK_ELEMS + i]
      {
        StretchOfDecode(ar, bytes, n, b * BLOCK_ELEMS + i, b);
      }
      dst := dst + chunk[..];
    }
    dst := dst[..n];
  }

  // ----- The block format, as an encoder sees it

  /** A block's content: the bits of its f16 scale and 32 signed codes. */
  datatype Content = Content(bits: nat, codes: seq<int>) {
    predicate Valid() {
      bits < 0x1_0000 && |codes| == 32 && forall i :: 0 <= i < 32 ==> -128 <= codes[i] < 128
    }
  }

  /** Two bytes of scale, low byte first, then the codes in two's complement. */
  function Encode(blocks: seq<Content>): (bytes: seq<Byte>)
    requires forall b :: 0 <= b < |blocks| ==> blocks[b].Valid()
    ensures |bytes| == 34 * |blocks|
  {
    if blocks == [] then []
    else
      var last := blocks[|blocks| - 1];
      assert last.Valid();
      Encode(blocks[..|blocks| - 1]) + [last.bits % 256, last.bits / 256]
        + CodeBytes(last.codes)
  }

  function CodeBytes(codes: seq<int>): (bytes: seq<Byte>)
    requires forall i :: 0 <= i < |codes| ==> -128 <= codes[i] < 128
    ensures |bytes| == |codes|
  {
    seq(|codes|, i requires 0 <= i < |codes| => TwosComplement(codes[i]))
  }

  function TwosComplement(code: int): Byte
    requires -128 <= code < 128
  {
    if code < 0 then code + 256 else code
  }

  lemma {:induction false} EncodedBlock(blocks: seq<Content>, b: nat)
    requires (forall b :: 0 <= b < |blocks| ==> blocks[b].Valid()) && b < |blocks|
    ensures Block(Encode(blocks), b) == Encode([blocks[b]])
  {
    var n := |blocks| - 1;
    EncodedLast(blocks);
    hide Encode;
    if b < n {
      EncodedBlock(blocks[..n], b);
    }
    BlockOfConcat(Encode(blocks[..n]), Encode([blocks[n]]), b);
  }

  lemma EncodedLast(blocks: seq<Content>)
    requires (forall b :: 0 <= b < |blocks| ==> blocks[b].Valid()) && blocks != []
    ensures Encode(blocks) == Encode(blocks[..|blocks| - 1]) + Encode([blocks[|blocks| - 1]])
  {
    assert [blocks[|blocks| - 1]][..0] == [];
  }

  lemma BlockOfConcat(front: seq<Byte>, last: seq<Byte>, b: nat)
    requires |front| % BLOCK_BYTES == 0 && |last| == BLOCK_BYTES && b * BLOCK_BYTES <= |front|
    ensures Block(front + last, b) == if b * BLOCK_BYTES == |front| then last else Block(front, b)
  {
  }

  lemma EncodedWeight<T>(ar: Arith<T>, c: Content, i: nat)
    requires c.Valid() && i < 32
    ensures BlockWeight(ar, Encode([c]), i) == ar.scaled(ar.half(c.bits), c.codes[i])
  {
    assert [c][..0] == [];
  }

  /** Reading back what was encoded: weight `k` is code `k % 32` of block `k / 32` at that block's scale. */
  lemma DecodeInvertsEncode<T>(ar: Arith<T>, blocks: seq<Content>, n: nat, k: nat)
    requires (forall b :: 0 <= b < |blocks| ==> blocks[b].Valid()) && k < n <= 32 * |blocks|
    ensures Holds(Encode(blocks), n) && k / 32 < |blocks| && blocks[k / 32].Valid()
    ensures Decode(ar, Encode(blocks), n)[k] == ar.scaled(ar.half(blocks[k / 32].bits), blocks[k / 32].codes[k % 32])
  {
    hide Encode, BlockWeight, Block;
    var c := blocks[k / 32];
    assert c.Valid();
    EncodedBlock(blocks, k / 32);
    EncodedWeight(ar, c, k % 32);
  }

  // ----- Ranges that cross blocks

  /** A weight of a block is the weight of the full decode at its flat position. */
  lemma StretchOfDecode<T>(ar: Arith<T>, bytes: seq<Byte>, n: nat, flat: nat, block: nat)
    requires Holds(bytes, n) && flat < n && block * BLOCK_ELEMS <= flat < block * BLOCK_ELEMS + BLOCK_ELEMS
    ensures (block + 1) * BLOCK_BYTES <= |bytes|
    ensures BlockWeight(ar, Block(bytes, block), flat - block * BLOCK_ELEMS) == Decode(ar, bytes, n)[flat]
  {
    assert flat / BLOCK_ELEMS == block;
    HoldsBlock(bytes, n, flat);
    BlockIsStretch(ar, bytes, block, flat - block * BLOCK_ELEMS);
  }

  /** `q8_0_copy_range`: the slice of the full decode, reading only the blocks that hold it. */
  method CopyRange<T>(ar: Arith<T>, bytes: seq<Byte>, startWeight: nat, n: nat, out: array<T>)
    requires out.Length == n && (n == 0 || Holds(bytes, startWeight + n))
    modifies out
    ensures n > 0 ==> out[..] == Decode(ar, bytes, startWeight + n)[startWeight..]
  {
    if n == 0 {
      return;
    }
    hide Decode, BlockWeight, Block, Holds;
    var firstBlock := startWeight / BLOCK_ELEMS;
    var lastBlock := (startWeight + n - 1) / BLOCK_ELEMS;
    ghost var wanted := Decode(ar, bytes, startWeight + n)[startWeight..];
    var decoded := new T[BLOCK_ELEMS](_ => ar.zero);
    for block := firstBlock to lastBlock + 1
      invariant out[..PartBefore(startWeight, n, block)] == wanted[..PartBefore(startWeight, n, block)]
    {
      StretchOfDecode(ar, bytes, startWeight + n, Max(startWeight, block * BLOCK_ELEMS), block);
      DecodeBlock(ar, Block(bytes, block), decoded);
      CopyBlock(ar, bytes, startWeight, n, block, decoded, out);
    }
    assert wanted[..n] == wanted && out[..n] == out[..];
  }

  /** The inner loop of `q8_0_copy_range`: the part of the range inside one block. */
  method CopyBlock<T>(ar: Arith<T>, bytes: seq<Byte>, startWeight: nat, n: nat, block: nat, decoded: array<T>, out: array<T>)
    requires out.Length == n && Holds(bytes, startWeight + n) && decoded.Length == BLOCK_ELEMS && decoded != out
    requires block * BLOCK_ELEMS < startWeight + n && startWeight < (block + 1) * BLOCK_ELEMS && (block + 1) * BLOCK_BYTES <= |bytes|
    requires forall i :: 0 <= i < BLOCK_ELEMS ==> decoded[i] == BlockWeight(ar, Block(bytes, block), i)
    requires var wanted := Decode(ar, bytes, startWeight + n)[startWeight..];
      out[..PartBefore(startWeight, n, block)] == wanted[..PartBefore(startWeight, n, block)]
    modifies out
    ensures var wanted := Decode(ar, bytes, startWeight + n)[startWeight..];
      out[..PartBefore(startWeight, n, block + 1)] == wanted[..PartBefore(startWeight, n, block + 1)]
  {
    hide Decode, BlockWeight, Block, Holds;
    ghost var wanted := Decode(ar, bytes, startWeight + n)[startWeight..];
    var blockStart := block * BLOCK_ELEMS;
    var copyStart := Max(startWeight, blockStart);
    var copyEnd := Min(startWeight + n, blockStart + BLOCK_ELEMS);
    for flat := copyStart to copyEnd
      invariant out[..flat - startWeight] == wanted[..flat - startWeight]
    {
      StretchOfDecode(ar, bytes, startWeight + n, flat, block);
      out[flat - startWeight] := decoded[flat - blockStart];
    }
  }

  /** How much of a range lies before block `block`. */
  function PartBefore(start: nat, n: nat, block: nat): (r: nat)
    ensures r <= n
  {
    if block * BLOCK_ELEMS <= start then 0 else Min(n, block * BLOCK_ELEMS - start)
  }

  /** The dot product in the order of the loop: left to right from zero. */
  function Dot<T>(ar: Arith<T>, w: seq<T>, x: seq<T>): T
    requires |w| == |x|
  {
    if w == [] then ar.zero
    else ar.mulAdd(Dot(ar, w[..|w| - 1], x[..|x| - 1]), w[|w| - 1], x[|x| - 1])
  }

  ghost predicate AddsExactly(ar: Arith<real>) {
    ar.zero == 0.0 && forall acc, w, x :: ar.mulAdd(acc, w, x) == acc + w * x
  }

  /** In exact arithmetic the dot product is linear in the vector. */
  lemma {:induction false} DotIsLinear(ar: Arith<real>, w: seq<real>, x: seq<real>, y: seq<real>, z: seq<real>, a: real)
    requires AddsExactly(ar) && |w| == |x| == |y| == |z|
    requires forall i :: 0 <= i < |w| ==> z[i] == a * x[i] + y[i]
    ensures Dot(ar, w, z) == a * Dot(ar, w, x) + Dot(ar, w, y)
  {
    if w != [] {
      var n := |w| - 1;
      DotIsLinear(ar, w[..n], x[..n], y[..n], z[..n], a);
      LinearStep(a, Dot(ar, w[..n], x[..n]), Dot(ar, w[..n], y[..n]), w[n], x[n], y[n]);
    }
  }

  lemma LinearStep(a: real, dx: real, dy: real, w: real, x: real, y: real)
    ensures (a * dx + dy) + w * (a * x + y) == a * (dx + w * x) + (dy + w * y)
  {
  }

  /** And the unit vector at `k` reads weight `k`. */
  lemma {:induction false} DotReadsWeight(ar: Arith<real>, w: seq<real>, x: seq<real>, k: nat)
    requires AddsExactly(ar) && |w| == |x|
    requires forall i :: 0 <= i < |x| ==> x[i] == if i == k then 1.0 else 0.0
    ensures Dot(ar, w, x) == if k < |w| then w[k] else 0.0
  {
    if w != [] {
      var n := |w| - 1;
      DotReadsWeight(ar, w[..n], x[..n], k);
      assert Dot(ar, w, x) == Dot(ar, w[..n], x[..n]) + w[n] * x[n];
      assert x[n] == if k == n then 1.0 else 0.0;
    }
  }

  /** `q8_0_row_dot`: the dot product with the row as the full decode shows it, in the same order. */
  method RowDot<T>(ar: Arith<T>, bytes: seq<Byte>, row: nat, cols: nat, x: seq<T>) returns (acc: T)
    requires |x| == cols && Holds(bytes, row * cols + cols)
    ensures acc == Dot(ar, Decode(ar, bytes, row * cols + cols)[row * cols..], x)
  {
    if cols == 0 {
      return ar.zero;
    }
    acc := DotBlocks(ar, bytes, row * cols, cols, x);
  }

  /** The outer loop of `q8_0_row_dot`, over the blocks that hold part of the row. */
  method DotBlocks<T>(ar: Arith<T>, bytes: seq<Byte>, rowStart: nat, cols: nat, x: seq<T>) returns (acc: T)
    requires |x| == cols > 0 && Holds(bytes, rowStart + cols)
    ensures acc == Dot(ar, Decode(ar, bytes, rowStart + cols)[rowStart..], x)
  {
    hide Decode, BlockWeight, Block, Holds, PartBefore;
    ghost var rowWeights := Decode(ar, bytes, rowStart + cols)[rowStart..];
    var firstBlock := rowStart / BLOCK_ELEMS;
    var lastBlock := (rowStart + cols - 1) / BLOCK_ELEMS;
    WholePart(rowStart, cols);
    var decoded := new T[BLOCK_ELEMS](_ => ar.zero);
    acc := ar.zero;
    for block := firstBlock to lastBlock + 1
      invariant acc == Dot(ar, rowWeights[..PartBefore(rowStart, cols, block)], x[..PartBefore(rowStart, cols, block)])
    {
      StretchOfDecode(ar, bytes, rowStart + cols, Max(rowStart, block * BLOCK_ELEMS), block);
      DecodeBlock(ar, Block(bytes, block), decoded);
      acc := DotBlock(ar, bytes, rowStart, cols, x, block, decoded, acc);
    }
    assert rowWeights[..cols] == rowWeights && x[..cols] == x;
  }

  /** Nothing of a range lies before its first block, all of it before the block after its last. */
  lemma WholePart(start: nat, n: nat)
    requires n > 0
    ensures PartBefore(start, n, start / BLOCK_ELEMS) == 0
    ensures PartBefore(start, n, (start + n - 1) / BLOCK_ELEMS + 1) == n
  {
  }

  lemma DotOneMore<T>(ar: Arith<T>, w: seq<T>, x: seq<T>, n: nat)
    requires n < |w| && n < |x|
    ensures Dot(ar, w[..n + 1], x[..n + 1]) == ar.mulAdd(Dot(ar, w[..n], x[..n]), w[n], x[n])
  {
    assert w[..n + 1][..n] == w[..n] && x[..n + 1][..n] == x[..n];
  }

  /** The inner loop of `q8_0_row_dot`: the part of the row inside one block. */
  method DotBlock<T>(ar: Arith<T>, bytes: seq<Byte>, rowStart: nat, cols: nat, x: seq<T>, block: nat, decoded: array<T>, start: T)
    returns (acc: T)
    requires |x| == cols && Holds(bytes, rowStart + cols) && decoded.Length == BLOCK_ELEMS
    requires block * BLOCK_ELEMS < rowStart + cols && rowStart < (block + 1) * BLOCK_ELEMS && (block + 1) * BLOCK_BYTES <= |bytes|
    requires forall i :: 0 <= i < BLOCK_ELEMS ==> decoded[i] == BlockWeight(ar, Block(bytes, block), i)
    requires var w := Decode(ar, bytes, rowStart + cols)[rowStart..];
      start == Dot(ar, w[..PartBefore(rowStart, cols, block)], x[..PartBefore(rowStart, cols, block)])
    ensures var w := Decode(ar, bytes, rowStart + cols)[rowStart..];
      acc == Dot(ar, w[..PartBefore(rowStart, cols, block + 1)], x[..PartBefore(rowStart, cols, block + 1)])
  {
    hide Decode, BlockWeight, Block, Holds, Dot;
    var blockStart := block * BLOCK_ELEMS;
    ghost var w := Decode(ar, bytes, rowStart + cols)[rowStart..];
    var dotStart := Max(rowStart, blockStart);
    var dotEnd := Min(rowStart + cols, blockStart + BLOCK_ELEMS);
    acc := start;
    for flat := dotStart to dotEnd
      invariant acc == Dot(ar, w[..flat - rowStart], x[..flat - rowStart])
    {
      StretchOfDecode(ar, bytes, rowStart + cols, flat, block);
      DotOneMore(ar, w, x, flat - rowStart);
      acc := ar.mulAdd(acc, decoded[flat - blockStart], x[flat - rowStart]);
    }
  }

  // ----- The weight and its views

  datatype DenseWeight<T> =
    | F32(values: seq<T>, rows: nat, cols: nat)
    | Q8_0(bytes: seq<Byte>, rows: nat, cols: nat)
  {
    /** What both constructors establish. */
    predicate Valid() {
      match this
      case F32(values, rows, cols) => |values| == rows * cols
      case Q8_0(bytes, rows, cols) => |bytes| == BlockCount(rows * cols) * BLOCK_BYTES
    }

    /** The full decode: `to_f32_vec`. */
    function Flat(ar: Arith<T>): (r: seq<T>)
      requires Valid()
      ensures |r| == rows * cols
    {
      match this
      case F32(values, _, _) => values
      case Q8_0(bytes, rows, cols) => Decode(ar, bytes, rows * cols)
    }

    function Row(ar: Arith<T>, row: nat): (r: seq<T>)
      requires Valid() && row < rows
      ensures |r| == cols
    {
      RowInside(rows, cols, row);
      Flat(ar)[row * cols..row * cols + cols]
    }
  }

  lemma RowInside(rows: nat, cols: nat, row: nat)
    requires row < rows
    ensures 0 <= row * cols && row * cols + cols <= rows * cols
  {
    assert rows * cols == row * cols + cols + (rows - row - 1) * cols;
  }

  /** A longer decode begins with a shorter one. */
  lemma DecodePrefix<T>(ar: Arith<T>, bytes: seq<Byte>, n: nat, m: nat)
    requires n <= m && Holds(bytes, m)
    ensures Holds(bytes, n) && Decode(ar, bytes, n) == Decode(ar, bytes, m)[..n]
  {
    assert BlockCount(n) <= BlockCount(m);
  }

  datatype DenseWeightError =
    | ShapeOverflow(rows: nat, cols: nat)
    | ByteLength(rows: nat, cols: nat, expected: nat, actual: nat)

  datatype BuildResult<T> = Built(weight: DenseWeight<T>) | Rejected(error: DenseWeightError)

  /** `from_q8_0_bytes`: a weight is built exactly when the shape and its byte size fit in 64 bits and the
      bytes are exactly as many blocks as the shape needs. */
  function FromQ8Bytes<T>(bytes: seq<Byte>, rows: nat, cols: nat): (r: BuildResult<T>)
    ensures r.Built? <==> rows * cols < U64_SPAN && |bytes| < U64_SPAN && |bytes| == BlockCount(rows * cols) * BLOCK_BYTES
    ensures r.Built? ==> r.weight.Valid() && r.weight.rows == rows && r.weight.cols == cols
    ensures r.Rejected? && rows * cols < U64_SPAN && r.error.ShapeOverflow? ==> BlockCount(rows * cols) * BLOCK_BYTES >= U64_SPAN
  {
    var weights := rows * cols;
    if weights >= U64_SPAN then Rejected(ShapeOverflow(rows, cols))
    else
      var expected := BlockCount(weights) * BLOCK_BYTES;
      if expected >= U64_SPAN then Rejected(ShapeOverflow(weights, BLOCK_BYTES))
      else if |bytes| != expected then Rejected(ByteLength(rows, cols, expected, |bytes|))
      else Built(Q8_0(bytes, rows, cols))
  }

  /** `to_f32_vec`. */
  method ToF32Vec<T>(ar: Arith<T>, w: DenseWeight<T>) returns (out: seq<T>)
    requires w.Valid()
    ensures out == w.Flat(ar)
  {
    match w
    case F32(values, _, _) => out := values;
    case Q8_0(bytes, rows, cols) => out := DecodeAll(ar, bytes, rows * cols);
  }

  /** `row_dequant_into`. */
  method RowDequantInto<T>(ar: Arith<T>, w: DenseWeight<T>, row: nat) returns (out: array<T>)
    requires w.Valid() && row < w.rows
    ensures fresh(out) && out[..] == w.Row(ar, row)
  {
    RowInside(w.rows, w.cols, row);
    out := new T[w.cols](_ => ar.zero);
    match w
    case F32(values, _, cols) =>
      forall i | 0 <= i < cols {
        out[i] := values[row * cols + i];
      }
    case Q8_0(bytes, rows, cols) =>
      DecodePrefix(ar, bytes, row * cols + cols, rows * cols);
      CopyRange(ar, bytes, row * cols, cols, out);
  }

  lemma SliceFurther<T>(s: seq<T>, from: nat, n: nat)
    requires from + n <= |s|
    ensures s[..from] + s[from..from + n] == s[..from + n]
  {
  }

  /** The rows, concatenated, are the full decode: nothing is skipped or repeated at a block boundary. */
  lemma {:induction false} RowsAreFlat<T>(ar: Arith<T>, w: DenseWeight<T>, n: nat)
    requires w.Valid() && n <= w.rows
    ensures n * w.cols <= w.rows * w.cols && ConcatRows(ar, w, n) == w.Flat(ar)[..n * w.cols]
  {
    hide Decode, DenseWeight.Flat;
    if n > 0 {
      RowsAreFlat(ar, w, n - 1);
      RowInside(w.rows, w.cols, n - 1);
      assert (n - 1) * w.cols + w.cols == n * w.cols;
      SliceFurther(w.Flat(ar), (n - 1) * w.cols, w.cols);
    }
  }

  function ConcatRows<T>(ar: Arith<T>, w: DenseWeight<T>, n: nat): seq<T>
    requires w.Valid() && n <= w.rows
  {
    if n == 0 then [] else ConcatRows(ar, w, n - 1) + w.Row(ar, n - 1)
  }

  /** `matvec_into` on a Q8_0 weight: every output is the dot product with that row of the full decode. */
  method MatVecInto<T>(ar: Arith<T>, w: DenseWeight<T>, x: seq<T>, y: array<T>)
    requires w.Valid() && w.Q8_0? && |x| == w.cols && y.Length == w.rows
    modifies y
    ensures forall row :: 0 <= row < w.rows ==> y[row] == Dot(ar, w.Row(ar, row), x)
  {
    if w.rows == 0 || w.cols == 0 {
      for i := 0 to y.Length
        invariant forall j :: 0 <= j < i ==> y[j] == ar.zero
      {
        y[i] := ar.zero;
      }
      return;
    }
    for i := 0 to y.Length
      invariant forall row :: 0 <= row < i ==> y[row] == Dot(ar, w.Row(ar, row), x)
    {
      RowInside(w.rows, w.cols, i);
      DecodePrefix(ar, w.bytes, i * w.cols + w.cols, w.rows * w.cols);
      assert Decode(ar, w.bytes, i * w.cols + w.cols)[i * w.cols..] == w.Row(ar, i);
      y[i] := RowDot(ar, w.bytes, i, w.cols, x);
    }
  }

  /** The iterator, which decodes a block once and serves its 32 weights from the cache. */
  class DenseWeightIter<T> {
    const ar: Arith<T>
    const weight: DenseWeight<T>
    var offset: nat
    const decoded: array<T>
    var decodedBlock: Option<nat>

    /** The cache, when filled, holds the block it says it holds. */
    ghost predicate Valid()
      reads this, decoded
    {
      && weight.Valid() && decoded.Length == BLOCK_ELEMS && offset <= weight.rows * weight.cols
      && (decodedBlock.Some? ==>
            && weight.Q8_0? && (decodedBlock.value + 1) * BLOCK_BYTES <= |weight.bytes|
            && forall i :: 0 <= i < BLOCK_ELEMS ==> decoded[i] == BlockWeight(ar, Block(weight.bytes, decodedBlock.value), i))
    }

    constructor (ar: Arith<T>, weight: DenseWeight<T>)
      requires weight.Valid()
      ensures Valid() && this.ar == ar && this.weight == weight && offset == 0 && fresh(decoded)
    {
      this.ar, this.weight, offset := ar, weight, 0;
      decoded := new T[BLOCK_ELEMS](_ => ar.zero);
      decodedBlock := None;
    }

    /** The next weight of the full decode, and nothing after the last. */
    method Next() returns (value: Option<T>)
      requires Valid()
      modifies this, decoded
      ensures Valid()
      ensures old(offset) < |weight.Flat(ar)| ==> value == Some(weight.Flat(ar)[old(offset)]) && offset == old(offset) + 1
      ensures old(offset) == |weight.Flat(ar)| ==> value == None && offset == old(offset)
    {
      if offset >= weight.rows * weight.cols {
        return None;
      }
      var v: T;
      match weight {
        case F32(values, _, _) => v := values[offset];
        case Q8_0(bytes, rows, cols) =>
          HoldsBlock(bytes, rows * cols, offset);
          var block := offset / BLOCK_ELEMS;
          if decodedBlock != Some(block) {
            DecodeBlock(ar, Block(bytes, block), decoded);
            decodedBlock := Some(block);
          }
          v := decoded[offset % BLOCK_ELEMS];
      }
      offset := offset + 1;
      value := Some(v);
    }
  }

  /** Draining the iterator yields the full decode, in order and once. */
  method Collect<T>(ar: Arith<T>, w: DenseWeight<T>) returns (out: seq<T>)
    requires w.Valid()
    ensures out == w.Flat(ar)
  {
    hide Decode, DenseWeight.Flat, DenseWeightIter.Valid;
    var it := new DenseWeightIter(ar, w);
    out := [];
    var item := it.Next();
    while item.Some?
      invariant it.Valid() && it.ar == ar && it.weight == w && fresh(it) && fresh(it.decoded)
      invariant item.Some? ==> it.offset == |out| + 1 && |out| < |w.Flat(ar)| && item.value == w.Flat(ar)[|out|]
      invariant |out| <= |w.Flat(ar)| && out == w.Flat(ar)[..|out|]
      invariant item.None? ==> |out| == |w.Flat(ar)|
      decreases |w.Flat(ar)| - |out|, item.Some?
    {
      out := out + [item.value];
      item := it.Next();
    }
  }
}
