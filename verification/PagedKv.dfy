/**
 The block pool and the per-request block manager as objects. Every method is tied to its
 specification over `Pool` values; the manager's methods also say what the managers sharing the
 pool can read afterwards.
 */
module PagedKv {
  import opened Machine
  import opened Options
  import opened Floats
  import opened PagedPool
  import opened PagedProtocol
  import opened PagedRefinement
  import Seq = PagedSequential

  datatype PressureLevel = Normal | High | Critical

  /** The back-pressure thresholds, in exact arithmetic. */
  datatype PressureThresholds = PressureThresholds(high: real, critical: real, maxOverflowCapacity: Option<nat>) {
    /** What `try_new` accepts. */
    predicate Valid() { 0.0 < high <= critical <= 1.0 }
  }

  class BlockPool {
    const kvDim: nat
    const capacity: nat
    const thresholds: PressureThresholds
    const keys: array<F32>
    const values: array<F32>
    var free: seq<nat>
    var overflowKeys: seq<F32>
    var overflowValues: seq<F32>
    var overflowFree: seq<nat>
    var overflowCapacity: nat

    ghost function Model(): Pool
      reads this, keys, values
    {
      Pool(kvDim, capacity, thresholds.maxOverflowCapacity, keys[..], values[..], free,
           overflowKeys, overflowValues, overflowFree, overflowCapacity)
    }

    ghost predicate Valid()
      reads this, keys, values
    {
      keys != values && Shape(Model())
    }

    constructor WithThresholds(kvDim: nat, capacity: nat, thresholds: PressureThresholds)
      requires Accepts(kvDim, capacity)
      ensures Valid() && fresh(keys) && fresh(values)
      ensures Model() == FreshPool(kvDim, capacity, thresholds.maxOverflowCapacity)
      ensures this.thresholds == thresholds && Shared(this, [])
    {
      this.kvDim, this.capacity, this.thresholds := kvDim, capacity, thresholds;
      keys := new F32[BlockFloats(kvDim) * capacity](_ => POS_ZERO);
      values := new F32[BlockFloats(kvDim) * capacity](_ => POS_ZERO);
      free := CountDown(capacity % U32_SPAN);
      overflowKeys, overflowValues, overflowFree, overflowCapacity := [], [], [], 0;
      new;
      assert keys[..] == Zeros(BlockFloats(kvDim) * capacity);
      assert values[..] == Zeros(BlockFloats(kvDim) * capacity);
      FreshPoolHasShape(kvDim, capacity, thresholds.maxOverflowCapacity);
      FreshWorldIsSound(kvDim, capacity, thresholds.maxOverflowCapacity, 0);
      assert WorldOf(this, []) == FreshWorld(kvDim, capacity, thresholds.maxOverflowCapacity, 0);
    }

    method Allocate() returns (r: Seq.AllocResult)
      requires Valid()
      modifies this
      ensures Model() == Seq.Allocate(old(Model())).pool
      ensures r == Seq.Allocate(old(Model())).result
    {
      if free != [] {
        var index := free[|free| - 1];
        free := free[..|free| - 1];
        return Seq.Got(index);
      }
      if overflowFree != [] {
        var index := overflowFree[|overflowFree| - 1];
        overflowFree := overflowFree[..|overflowFree| - 1];
        return Seq.Got(Tag(index));
      }
      if thresholds.maxOverflowCapacity.Some? && overflowCapacity >= thresholds.maxOverflowCapacity.value {
        return Seq.Exhausted;
      }
      if overflowCapacity >= OVERFLOW_BIT {
        return Seq.IdSpaceExceeded;
      }
      r := Seq.Got(Tag(overflowCapacity));
      overflowKeys := overflowKeys + Zeros(BlockFloats(kvDim));
      overflowValues := overflowValues + Zeros(BlockFloats(kvDim));
      overflowCapacity := overflowCapacity + 1;
    }

    method Release(id: BlockId)
      requires Valid() && Materialised(Model(), id)
      modifies this
      ensures Model() == ReleaseOne(old(Model()), id)
    {
      if IsOverflow(id) {
        overflowFree := overflowFree + [Index(id)];
      } else {
        free := free + [id];
      }
    }

    /** `slab[offset..offset + |data|].copy_from_slice(data)` in place. */
    static method CopyInto(slab: array<F32>, offset: nat, data: seq<F32>)
      requires offset + |data| <= slab.Length
      modifies slab
      ensures slab[..] == Splice(old(slab[..]), offset, data)
    {
      for i := 0 to |data|
        invariant slab[offset..offset + i] == data[..i]
        invariant slab[..offset] == old(slab[..offset])
        invariant slab[offset + |data|..] == old(slab[offset + |data|..])
      {
        slab[offset + i] := data[i];
      }
      assert slab[..] == slab[..offset] + slab[offset..offset + |data|] + slab[offset + |data|..];
    }

    method WriteToken(id: BlockId, inBlock: nat, k: seq<F32>, v: seq<F32>)
      requires Valid() && Materialised(Model(), id) && inBlock < BLOCK_TOKENS && TokenFits(Model(), k, v)
      modifies this, keys, values
      ensures Model() == WriteValue(WriteKey(old(Model()), id, inBlock, k), id, inBlock, v)
    {
      assert !IsOverflow(id) ==> Index(id) == id;
      hide SlotOffset, BlockFloats, Index;
      SlotFits(kvDim, Index(id), inBlock, if IsOverflow(id) then overflowCapacity else capacity);
      var offset := SlotOffset(kvDim, Index(id), inBlock);
      if IsOverflow(id) {
        overflowKeys := Splice(overflowKeys, offset, k);
        overflowValues := Splice(overflowValues, offset, v);
      } else {
        CopyInto(keys, offset, k);
        CopyInto(values, offset, v);
      }
    }

    method ReadKeyInto(id: BlockId, inBlock: nat, dst: array<F32>)
      requires Valid() && Materialised(Model(), id) && inBlock < BLOCK_TOKENS
      requires dst.Length == kvDim && dst != keys && dst != values
      modifies dst
      ensures dst[..] == ReadKey(Model(), id, inBlock)
    {
      hide SlotOffset, BlockFloats;
      var offset := SlotOffset(kvDim, Index(id), inBlock);
      if IsOverflow(id) {
        SlotFits(kvDim, Index(id), inBlock, overflowCapacity);
        CopyInto(dst, 0, overflowKeys[offset..offset + kvDim]);
      } else {
        assert Index(id) == id;
        SlotFits(kvDim, id, inBlock, capacity);
        CopyInto(dst, 0, keys[offset..offset + kvDim]);
      }
    }

    method ReadValueInto(id: BlockId, inBlock: nat, dst: array<F32>)
      requires Valid() && Materialised(Model(), id) && inBlock < BLOCK_TOKENS
      requires dst.Length == kvDim && dst != keys && dst != values
      modifies dst
      ensures dst[..] == ReadValue(Model(), id, inBlock)
    {
      hide SlotOffset, BlockFloats;
      var offset := SlotOffset(kvDim, Index(id), inBlock);
      if IsOverflow(id) {
        SlotFits(kvDim, Index(id), inBlock, overflowCapacity);
        CopyInto(dst, 0, overflowValues[offset..offset + kvDim]);
      } else {
        assert Index(id) == id;
        SlotFits(kvDim, id, inBlock, capacity);
        CopyInto(dst, 0, values[offset..offset + kvDim]);
      }
    }

    method ShrinkOverflowToFit(ghost peers: seq<BlockManager>) returns (reclaimed: nat)
      requires Valid()
      modifies this
      ensures Model() == ShrinkOverflow(old(Model()))
      ensures reclaimed == if old(OverflowInUse(Model())) == 0 then old(overflowCapacity) else 0
      ensures overflowCapacity == if old(OverflowInUse(Model())) == 0 then 0 else old(overflowCapacity)
      ensures old(Shared(this, peers)) ==>
        && Shared(this, peers) && Seq.SameViews(old(WorldOf(this, peers)), WorldOf(this, peers))
        && (overflowCapacity == 0 <==> HoldsNoOverflow(old(WorldOf(this, peers)).managers))
    {
      hide Shape, Ledger, View, KeysStored, AllConsistent;
      ghost var w := WorldOf(this, peers);
      if Shared(this, peers) {
        Seq.ShrinkRefines(w);
        ShrinkGoesAheadExactlyWhen(w);
      }
      if |overflowFree| < overflowCapacity {
        assert World(ShrinkOverflow(w.pool), w.managers) == w;
        return 0;
      }
      reclaimed := overflowCapacity;
      if reclaimed == 0 {
        assert World(ShrinkOverflow(w.pool), w.managers) == w;
        return 0;
      }
      overflowKeys, overflowValues, overflowFree, overflowCapacity := [], [], [], 0;
      assert WorldOf(this, peers) == World(ShrinkOverflow(w.pool), w.managers);
    }

    method Utilization() returns (u: real)
      requires Valid()
      ensures u == UsedBlocks(Model()) as real / capacity as real
    {
      var usedPrimary := SaturatingSub(capacity, |free|);
      var overflowInUse := SaturatingSub(overflowCapacity, |overflowFree|);
      u := (usedPrimary + overflowInUse) as real / capacity as real;
    }

    method Pressure() returns (level: PressureLevel)
      requires Valid()
      ensures level == PressureOf(UsedBlocks(Model()), capacity, thresholds)
    {
      var u := Utilization();
      level := if u >= thresholds.critical then Critical else if u >= thresholds.high then High else Normal;
    }
  }

  function PressureOf(used: nat, capacity: nat, t: PressureThresholds): PressureLevel
    requires capacity > 0
  {
    var u := used as real / capacity as real;
    if u >= t.critical then Critical else if u >= t.high then High else Normal
  }

  /** Each level by used blocks against the threshold's share of the capacity; Critical is checked first. */
  lemma PressureLevels(used: nat, capacity: nat, t: PressureThresholds)
    requires capacity > 0
    ensures var level, u, c := PressureOf(used, capacity, t), used as real, capacity as real;
      && (level.Critical? <==> u >= t.critical * c)
      && (level.High? <==> t.high * c <= u < t.critical * c)
      && (level.Normal? <==> u < t.high * c && u < t.critical * c)
  {
    ShareIs(used as real, capacity as real, t.critical);
    ShareIs(used as real, capacity as real, t.high);
  }

  lemma ShareIs(used: real, capacity: real, share: real)
    requires capacity > 0.0
    ensures used / capacity >= share <==> used >= share * capacity
  {
    var u := used / capacity;
    assert u * capacity == used;
    if u >= share {
      assert (u - share) * capacity >= 0.0;
    } else {
      assert (share - u) * capacity > 0.0;
    }
  }

  function Severity(level: PressureLevel): nat {
    match level case Normal => 0 case High => 1 case Critical => 2
  }

  /** Fewer used blocks never raise the pressure level. */
  lemma PressureIsMonotone(used: nat, used': nat, capacity: nat, t: PressureThresholds)
    requires capacity > 0 && used <= used'
    ensures Severity(PressureOf(used, capacity, t)) <= Severity(PressureOf(used', capacity, t))
  {
    assert used as real / capacity as real <= used' as real / capacity as real;
  }

  // ----- Managers sharing a pool

  ghost function WorldOf(pool: BlockPool, peers: seq<BlockManager>): World
    reads pool, pool.keys, pool.values, peers
  {
    World(pool.Model(), seq(|peers|, i requires 0 <= i < |peers| reads peers => peers[i].State()))
  }

  /** `peers` are all the managers of `pool`, and together they are in a sound state. */
  ghost predicate Shared(pool: BlockPool, peers: seq<BlockManager>)
    reads pool, pool.keys, pool.values, peers
  {
    && pool.keys != pool.values
    && (forall i :: 0 <= i < |peers| ==> peers[i].pool == pool)
    && (forall i, j :: 0 <= i < j < |peers| ==> peers[i] != peers[j])
    && Sound(WorldOf(pool, peers))
  }

  /** The world with one more empty manager. */
  function Joined(w: World): World { w.(managers := w.managers + [Manager([], 0, Idle)]) }

  lemma JoinedLedger(w: World)
    requires Ledger(w)
    ensures Ledger(Joined(w))
  {
    hide Span, Tagged;
    assert Joined(w).managers[..|w.managers|] == w.managers;
  }

  lemma JoinedIsSound(w: World)
    requires Sound(w)
    ensures Sound(Joined(w)) && View(Joined(w), |w.managers|) == []
    ensures forall m :: 0 <= m < |w.managers| ==> View(Joined(w), m) == View(w, m)
  {
    hide Shape, Ledger, HeldAll, Materialised, TokenAt;
    JoinedLedger(w);
    assert forall m :: 0 <= m < |w.managers| ==> Joined(w).managers[m] == w.managers[m];
  }

  class BlockManager {
    const pool: BlockPool
    var blockTable: seq<BlockId>
    var seqLen: nat

    ghost function State(): Manager
      reads this
    {
      Manager(blockTable, seqLen, Idle)
    }

    /** A new manager joins the managers of its pool and changes nothing for them. */
    constructor (pool: BlockPool, ghost peers: seq<BlockManager>)
      requires Shared(pool, peers)
      ensures this.pool == pool && State() == Manager([], 0, Idle)
      ensures Shared(pool, peers + [this])
      ensures WorldOf(pool, peers + [this]) == Joined(old(WorldOf(pool, peers)))
      ensures forall m :: 0 <= m < |peers| ==> View(WorldOf(pool, peers + [this]), m) == old(View(WorldOf(pool, peers), m))
      ensures View(WorldOf(pool, peers + [this]), |peers|) == []
    {
      this.pool := pool;
      blockTable, seqLen := [], 0;
      new;
      hide Shape, Ledger, View, KeysStored, AllConsistent;
      ghost var w := old(WorldOf(pool, peers));
      JoinedIsSound(w);
      assert WorldOf(pool, peers + [this]) == Joined(w);
    }

    method Append(k: seq<F32>, v: seq<F32>, ghost peers: seq<BlockManager>, ghost me: nat)
      returns (r: Seq.AppendResult)
      requires Shared(pool, peers) && me < |peers| && peers[me] == this && TokenFits(pool.Model(), k, v)
      modifies this, pool, pool.keys, pool.values
      ensures Shared(pool, peers)
      ensures Seq.OnlyChanges(old(WorldOf(pool, peers)), WorldOf(pool, peers), me,
                if r.Ok? then old(View(WorldOf(pool, peers), me)) + [Token(k, v)] else old(View(WorldOf(pool, peers), me)))
      ensures !r.Ok? ==> WorldOf(pool, peers) == old(WorldOf(pool, peers))
      ensures r.ErrExhausted? <==> old(
                seqLen % BLOCK_TOKENS == 0 && pool.free == [] && pool.thresholds.maxOverflowCapacity.Some?
                && OverflowInUse(pool.Model()) == pool.thresholds.maxOverflowCapacity.value)
      ensures r.Panic? <==> old(
                seqLen % BLOCK_TOKENS == 0 && pool.free == [] && OverflowInUse(pool.Model()) == OVERFLOW_BIT
                && (pool.thresholds.maxOverflowCapacity.None? || pool.thresholds.maxOverflowCapacity.value > OVERFLOW_BIT))
    {
      hide Shape, Ledger, AllConsistent, KeysStored, View, WriteKey, WriteValue;
      ghost var w := WorldOf(pool, peers);
      Seq.AppendRefines(w, me, k, v);
      Seq.RefusedExactlyAtCap(w);
      Seq.AbortsExactlyAtIdSpace(w);
      var pos := seqLen;
      var blockIndex, inBlock := pos / BLOCK_TOKENS, pos % BLOCK_TOKENS;
      if inBlock == 0 {
        var a := pool.Allocate();
        if a.Exhausted? {
          assert WorldOf(pool, peers) == w;
          return Seq.ErrExhausted;
        }
        if a.IdSpaceExceeded? {
          assert WorldOf(pool, peers) == w;
          return Seq.Panic;
        }
        blockTable := blockTable + [a.id];
        Seq.FreshTailExists(w, me);
      } else {
        Seq.OldTailExists(w, me);
      }
      pool.WriteToken(blockTable[blockIndex], inBlock, k, v);
      seqLen := seqLen + 1;
      assert WorldOf(pool, peers) == Put(w, Seq.Append(w, me, k, v).pool, me, Seq.Append(w, me, k, v).manager);
      return Seq.Ok;
    }

    /** `physical_addr`: panics past `seq_len`, so callers stay below it. */
    method PhysicalAddr(i: nat) returns (id: BlockId, inBlock: nat)
      requires i < seqLen && i / BLOCK_TOKENS < |blockTable|
      ensures id == blockTable[i / BLOCK_TOKENS] && inBlock == i % BLOCK_TOKENS
    {
      id, inBlock := blockTable[i / BLOCK_TOKENS], i % BLOCK_TOKENS;
    }

    method KeyInto(i: nat, dst: array<F32>, ghost peers: seq<BlockManager>, ghost me: nat)
      requires Shared(pool, peers) && me < |peers| && peers[me] == this
      requires i < seqLen && dst.Length == pool.kvDim && dst != pool.keys && dst != pool.values
      modifies dst
      ensures WorldOf(pool, peers) == old(WorldOf(pool, peers)) && i < |View(WorldOf(pool, peers), me)|
      ensures dst[..] == View(WorldOf(pool, peers), me)[i].key
    {
      hide Shape, Ledger, KeysStored, ReadKey, ReadValue;
      ManagerIsReadable(WorldOf(pool, peers), me);
      var id, inBlock := PhysicalAddr(i);
      pool.ReadKeyInto(id, inBlock, dst);
    }

    method ValueInto(i: nat, dst: array<F32>, ghost peers: seq<BlockManager>, ghost me: nat)
      requires Shared(pool, peers) && me < |peers| && peers[me] == this
      requires i < seqLen && dst.Length == pool.kvDim && dst != pool.keys && dst != pool.values
      modifies dst
      ensures WorldOf(pool, peers) == old(WorldOf(pool, peers)) && i < |View(WorldOf(pool, peers), me)|
      ensures dst[..] == View(WorldOf(pool, peers), me)[i].value
    {
      hide Shape, Ledger, KeysStored, ReadKey, ReadValue;
      ManagerIsReadable(WorldOf(pool, peers), me);
      var id, inBlock := PhysicalAddr(i);
      pool.ReadValueInto(id, inBlock, dst);
    }

    /** `release_all`, which is also what dropping a manager does. */
    method ReleaseAll(ghost peers: seq<BlockManager>, ghost me: nat)
      requires Shared(pool, peers) && me < |peers| && peers[me] == this
      modifies this, pool
      ensures Shared(pool, peers)
      ensures Seq.OnlyChanges(old(WorldOf(pool, peers)), WorldOf(pool, peers), me, [])
      ensures State() == Manager([], 0, Idle)
      ensures pool.Model() == Seq.ReleaseEach(old(pool.Model()), old(blockTable))
    {
      hide Ledger, AllConsistent, KeysStored, View, Accepts;
      ghost var w := WorldOf(pool, peers);
      Seq.ReleaseRefines(w, me);
      TableExists(w, me);
      var drained := blockTable;
      for i := 0 to |drained|
        invariant blockTable == drained && seqLen == old(seqLen)
        invariant pool.Valid() && pool.overflowCapacity == old(pool.overflowCapacity)
        invariant Seq.ReleaseEach(pool.Model(), drained[i..]) == Seq.ReleaseEach(w.pool, drained)
        invariant pool.keys[..] == w.pool.keys && pool.values[..] == w.pool.values
      {
        assert drained[i..][1..] == drained[i + 1..];
        ReleaseKeepsShape(pool.Model(), drained[i]);
        pool.Release(drained[i]);
      }
      blockTable, seqLen := [], 0;
      assert WorldOf(pool, peers) == Put(w, Seq.ReleaseEach(w.pool, w.managers[me].table), me, Manager([], 0, Idle));
    }
  }
}
