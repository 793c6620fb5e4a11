/**
 The shared physical block pool behind the paged KV cache, as a value: two flat slabs of floats
 per half (keys, values), a LIFO free list for each slab, and the overflow capacity.
 `PagedProtocol` runs it one lock acquisition at a time, `PagedKv` is the pool as an object.
 */
module PagedPool {
  import opened Machine
  import opened Arithmetic
  import opened Options
  import opened Floats

  const BLOCK_TOKENS: nat := 16
  const OVERFLOW_BIT: nat := 0x8000_0000

  /** A block id is a `u32`; bit 31 set means "overflow slab", the low 31 bits are the index. */
  type BlockId = id: nat | id < U32_SPAN

  predicate IsOverflow(id: BlockId) { id >= OVERFLOW_BIT }

  function Index(id: BlockId): nat { id % OVERFLOW_BIT }

  function Tag(index: nat): BlockId
    requires index < OVERFLOW_BIT
  {
    index + OVERFLOW_BIT
  }

  datatype Pool = Pool(
    kvDim: nat,
    capacity: nat,
    maxOverflow: Option<nat>,
    keys: seq<F32>,
    values: seq<F32>,
    free: seq<nat>,
    overflowKeys: seq<F32>,
    overflowValues: seq<F32>,
    overflowFree: seq<nat>,
    overflowCapacity: nat)

  function BlockFloats(kvDim: nat): nat { BLOCK_TOKENS * kvDim }

  /** `0..capacity as u32`: how many primary ids the free list is ever given. */
  function Slots(p: Pool): nat { p.capacity % U32_SPAN }

  /** What the constructor asserts; the 31-bit check sees the truncated capacity. */
  predicate Accepts(kvDim: nat, capacity: nat) {
    && kvDim > 0
    && capacity > 0
    && BlockFloats(kvDim) * capacity < U64_SPAN
    && capacity % U32_SPAN < OVERFLOW_BIT
  }

  function Zeros(n: nat): (s: seq<F32>)
    ensures |s| == n
  {
    seq(n, _ => POS_ZERO)
  }

  function CountDown(n: nat): (s: seq<nat>)
    ensures |s| == n && forall i :: 0 <= i < n ==> s[i] == n - 1 - i
  {
    seq(n, i requires 0 <= i < n => n - 1 - i)
  }

  function FreshPool(kvDim: nat, capacity: nat, maxOverflow: Option<nat>): Pool {
    Pool(kvDim, capacity, maxOverflow,
         Zeros(BlockFloats(kvDim) * capacity), Zeros(BlockFloats(kvDim) * capacity),
         CountDown(capacity % U32_SPAN), [], [], [], 0)
  }

  /** The slabs have the sizes the index arithmetic relies on and every listed id exists. */
  predicate Shape(p: Pool) {
    && Accepts(p.kvDim, p.capacity)
    && |p.keys| == |p.values| == BlockFloats(p.kvDim) * p.capacity
    && |p.overflowKeys| == |p.overflowValues| == BlockFloats(p.kvDim) * p.overflowCapacity
    && p.overflowCapacity <= OVERFLOW_BIT
    && (p.maxOverflow.Some? ==> p.overflowCapacity <= p.maxOverflow.value)
    && (forall i :: 0 <= i < |p.free| ==> p.free[i] < Slots(p))
    && (forall i :: 0 <= i < |p.overflowFree| ==> p.overflowFree[i] < p.overflowCapacity)
  }

  /** The id names a block that exists in its slab. */
  predicate Materialised(p: Pool, id: BlockId) {
    if IsOverflow(id) then Index(id) < p.overflowCapacity else id < Slots(p)
  }

  // ----- Slot arithmetic: block `index`, token offset `inBlock`, `kvDim` floats each.

  function SlotOffset(kvDim: nat, index: nat, inBlock: nat): nat {
    index * BlockFloats(kvDim) + inBlock * kvDim
  }

  lemma SlotOffsetIsLinear(kvDim: nat, index: nat, inBlock: nat)
    ensures SlotOffset(kvDim, index, inBlock) == (index * BLOCK_TOKENS + inBlock) * kvDim
  {
  }

  /** A slot of an existing block lies inside the slab. */
  lemma SlotFits(kvDim: nat, index: nat, inBlock: nat, blocks: nat)
    requires index < blocks && inBlock < BLOCK_TOKENS
    ensures SlotOffset(kvDim, index, inBlock) + kvDim <= BlockFloats(kvDim) * blocks
  {
    MulMonotone(index * BLOCK_TOKENS + inBlock + 1, blocks * BLOCK_TOKENS, kvDim);
    SlotOffsetIsLinear(kvDim, index, inBlock);
    assert (index * BLOCK_TOKENS + inBlock + 1) * kvDim == (index * BLOCK_TOKENS + inBlock) * kvDim + kvDim;
    assert blocks * BLOCK_TOKENS * kvDim == BlockFloats(kvDim) * blocks;
  }

  /** Two different slots share no float. */
  lemma SlotsDisjoint(kvDim: nat, i: nat, j: nat, i': nat, j': nat)
    requires j < BLOCK_TOKENS && j' < BLOCK_TOKENS && (i, j) != (i', j')
    ensures SlotOffset(kvDim, i, j) + kvDim <= SlotOffset(kvDim, i', j')
         || SlotOffset(kvDim, i', j') + kvDim <= SlotOffset(kvDim, i, j)
  {
    var n, n' := i * BLOCK_TOKENS + j, i' * BLOCK_TOKENS + j';
    SlotOffsetIsLinear(kvDim, i, j);
    SlotOffsetIsLinear(kvDim, i', j');
    assert n != n';
    if n < n' {
      MulMonotone(n + 1, n', kvDim);
      assert (n + 1) * kvDim == n * kvDim + kvDim;
    } else {
      MulMonotone(n' + 1, n, kvDim);
      assert (n' + 1) * kvDim == n' * kvDim + kvDim;
    }
  }

  /** Overwrite `|data|` floats of a slab from `offset` on (`copy_from_slice`). */
  function Splice(slab: seq<F32>, offset: nat, data: seq<F32>): (r: seq<F32>)
    requires offset + |data| <= |slab|
    ensures |r| == |slab|
  {
    slab[..offset] + data + slab[offset + |data|..]
  }

  lemma SliceOfSplice(slab: seq<F32>, offset: nat, data: seq<F32>, o: nat, n: nat)
    requires offset + |data| <= |slab| && o + n <= |slab|
    ensures o == offset && n == |data| ==> Splice(slab, offset, data)[o..o + n] == data
    ensures o + n <= offset || offset + |data| <= o ==> Splice(slab, offset, data)[o..o + n] == slab[o..o + n]
  {
    var r := Splice(slab, offset, data);
    if o + n <= offset || offset + |data| <= o {
      assert forall i :: o <= i < o + n ==> r[i] == slab[i];
    }
  }

  function ReadSlot(slab: seq<F32>, kvDim: nat, blocks: nat, index: nat, inBlock: nat): (r: seq<F32>)
    requires |slab| == BlockFloats(kvDim) * blocks && index < blocks && inBlock < BLOCK_TOKENS
    ensures |r| == kvDim
  {
    SlotFits(kvDim, index, inBlock, blocks);
    var o := SlotOffset(kvDim, index, inBlock);
    slab[o..o + kvDim]
  }

  function WriteSlot(slab: seq<F32>, kvDim: nat, blocks: nat, index: nat, inBlock: nat, data: seq<F32>): (r: seq<F32>)
    requires |slab| == BlockFloats(kvDim) * blocks && index < blocks && inBlock < BLOCK_TOKENS && |data| == kvDim
    ensures |r| == |slab|
  {
    SlotFits(kvDim, index, inBlock, blocks);
    Splice(slab, SlotOffset(kvDim, index, inBlock), data)
  }

  /** A slot write is seen at that slot and nowhere else in the slab. */
  lemma ReadAfterWriteSlot(slab: seq<F32>, kvDim: nat, blocks: nat, i: nat, j: nat, data: seq<F32>, i': nat, j': nat)
    requires |slab| == BlockFloats(kvDim) * blocks && |data| == kvDim
    requires i < blocks && j < BLOCK_TOKENS && i' < blocks && j' < BLOCK_TOKENS
    ensures ReadSlot(WriteSlot(slab, kvDim, blocks, i, j, data), kvDim, blocks, i', j')
         == if (i', j') == (i, j) then data else ReadSlot(slab, kvDim, blocks, i', j')
  {
    SlotFits(kvDim, i, j, blocks);
    SlotFits(kvDim, i', j', blocks);
    var o, o' := SlotOffset(kvDim, i, j), SlotOffset(kvDim, i', j');
    if (i', j') != (i, j) {
      SlotsDisjoint(kvDim, i, j, i', j');
    }
    SliceOfSplice(slab, o, data, o', kvDim);
  }

  /** Appending zeroed blocks to a slab leaves the old slots as they were. */
  lemma ReadAfterGrow(slab: seq<F32>, kvDim: nat, blocks: nat, i: nat, j: nat)
    requires |slab| == BlockFloats(kvDim) * blocks && i < blocks && j < BLOCK_TOKENS
    ensures |slab + Zeros(BlockFloats(kvDim))| == BlockFloats(kvDim) * (blocks + 1)
    ensures ReadSlot(slab + Zeros(BlockFloats(kvDim)), kvDim, blocks + 1, i, j) == ReadSlot(slab, kvDim, blocks, i, j)
  {
    SlotFits(kvDim, i, j, blocks);
    assert BlockFloats(kvDim) * (blocks + 1) == BlockFloats(kvDim) * blocks + BlockFloats(kvDim);
  }

  // ----- Reading and writing tokens

  datatype Token = Token(key: seq<F32>, value: seq<F32>)

  function ReadKey(p: Pool, id: BlockId, inBlock: nat): (k: seq<F32>)
    requires Shape(p) && Materialised(p, id) && inBlock < BLOCK_TOKENS
    ensures |k| == p.kvDim
  {
    if IsOverflow(id)
    then ReadSlot(p.overflowKeys, p.kvDim, p.overflowCapacity, Index(id), inBlock)
    else ReadSlot(p.keys, p.kvDim, p.capacity, id, inBlock)
  }

  function ReadValue(p: Pool, id: BlockId, inBlock: nat): (v: seq<F32>)
    requires Shape(p) && Materialised(p, id) && inBlock < BLOCK_TOKENS
    ensures |v| == p.kvDim
  {
    if IsOverflow(id)
    then ReadSlot(p.overflowValues, p.kvDim, p.overflowCapacity, Index(id), inBlock)
    else ReadSlot(p.values, p.kvDim, p.capacity, id, inBlock)
  }

  function WriteKey(p: Pool, id: BlockId, inBlock: nat, k: seq<F32>): (r: Pool)
    requires Shape(p) && Materialised(p, id) && inBlock < BLOCK_TOKENS && |k| == p.kvDim
    ensures Shape(r)
  {
    if IsOverflow(id)
    then p.(overflowKeys := WriteSlot(p.overflowKeys, p.kvDim, p.overflowCapacity, Index(id), inBlock, k))
    else p.(keys := WriteSlot(p.keys, p.kvDim, p.capacity, id, inBlock, k))
  }

  function WriteValue(p: Pool, id: BlockId, inBlock: nat, v: seq<F32>): (r: Pool)
    requires Shape(p) && Materialised(p, id) && inBlock < BLOCK_TOKENS && |v| == p.kvDim
    ensures Shape(r)
  {
    if IsOverflow(id)
    then p.(overflowValues := WriteSlot(p.overflowValues, p.kvDim, p.overflowCapacity, Index(id), inBlock, v))
    else p.(values := WriteSlot(p.values, p.kvDim, p.capacity, id, inBlock, v))
  }

  /** A key written to one slot of the pool is read back from it and from no other. */
  lemma ReadAfterWriteKey(p: Pool, id: BlockId, j: nat, k: seq<F32>, id': BlockId, j': nat)
    requires Shape(p) && Materialised(p, id) && Materialised(p, id')
    requires j < BLOCK_TOKENS && j' < BLOCK_TOKENS && |k| == p.kvDim
    ensures ReadKey(WriteKey(p, id, j, k), id', j') == if (id', j') == (id, j) then k else ReadKey(p, id', j')
    ensures ReadValue(WriteKey(p, id, j, k), id', j') == ReadValue(p, id', j')
  {
    hide ReadSlot, WriteSlot;
    if IsOverflow(id) && IsOverflow(id') {
      ReadAfterWriteSlot(p.overflowKeys, p.kvDim, p.overflowCapacity, Index(id), j, k, Index(id'), j');
    } else if !IsOverflow(id) && !IsOverflow(id') {
      ReadAfterWriteSlot(p.keys, p.kvDim, p.capacity, id, j, k, id', j');
    }
  }

  lemma ReadAfterWriteValue(p: Pool, id: BlockId, j: nat, v: seq<F32>, id': BlockId, j': nat)
    requires Shape(p) && Materialised(p, id) && Materialised(p, id')
    requires j < BLOCK_TOKENS && j' < BLOCK_TOKENS && |v| == p.kvDim
    ensures ReadValue(WriteValue(p, id, j, v), id', j') == if (id', j') == (id, j) then v else ReadValue(p, id', j')
    ensures ReadKey(WriteValue(p, id, j, v), id', j') == ReadKey(p, id', j')
  {
    hide ReadSlot, WriteSlot;
    if IsOverflow(id) && IsOverflow(id') {
      ReadAfterWriteSlot(p.overflowValues, p.kvDim, p.overflowCapacity, Index(id), j, v, Index(id'), j');
    } else if !IsOverflow(id) && !IsOverflow(id') {
      ReadAfterWriteSlot(p.values, p.kvDim, p.capacity, id, j, v, id', j');
    }
  }

  // ----- Allocation, release and shrink, one critical section each

  /** Push an id back on the free list of its slab. */
  function ReleaseOne(p: Pool, id: BlockId): Pool {
    if IsOverflow(id) then p.(overflowFree := p.overflowFree + [Index(id)]) else p.(free := p.free + [id])
  }

  predicate AtOverflowCap(p: Pool) {
    p.maxOverflow.Some? && p.overflowCapacity >= p.maxOverflow.value
  }

  /** The 31-bit assertion inside the growth path. */
  predicate IdSpaceFull(p: Pool) { p.overflowCapacity >= OVERFLOW_BIT }

  function Grow(p: Pool): Pool {
    p.(overflowKeys := p.overflowKeys + Zeros(BlockFloats(p.kvDim)),
       overflowValues := p.overflowValues + Zeros(BlockFloats(p.kvDim)),
       overflowCapacity := p.overflowCapacity + 1)
  }

  predicate CanShrink(p: Pool) {
    |p.overflowFree| >= p.overflowCapacity && p.overflowCapacity != 0
  }

  function ShrinkOverflow(p: Pool): Pool {
    if CanShrink(p) then
      p.(overflowKeys := [], overflowValues := [], overflowFree := [], overflowCapacity := 0)
    else p
  }

  function SaturatingSub(a: nat, b: nat): nat { if a < b then 0 else a - b }

  function OverflowInUse(p: Pool): nat { SaturatingSub(p.overflowCapacity, |p.overflowFree|) }

  /** The numerator of `utilization`. */
  function UsedBlocks(p: Pool): nat { SaturatingSub(p.capacity, |p.free|) + OverflowInUse(p) }
}
