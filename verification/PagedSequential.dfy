/**
 The pool's operations run without interference: what a single caller sees. Each one is shown to
 be a schedule of the protocol, so it inherits the refinement theorem.
 */
module PagedSequential {
  import opened Arithmetic
  import opened Floats
  import opened PagedPool
  import opened PagedProtocol
  import opened PagedRefinement

  datatype AllocResult = Got(id: BlockId) | Exhausted | IdSpaceExceeded

  datatype Allocation = Allocation(pool: Pool, result: AllocResult)

  /** `allocate`: primary list, then overflow list, then growth. */
  function Allocate(p: Pool): Allocation
    requires Shape(p)
  {
    if p.free != [] then
      Allocation(p.(free := p.free[..|p.free| - 1]), Got(p.free[|p.free| - 1]))
    else if p.overflowFree != [] then
      Allocation(p.(overflowFree := p.overflowFree[..|p.overflowFree| - 1]),
                 Got(Tag(p.overflowFree[|p.overflowFree| - 1])))
    else if AtOverflowCap(p) then Allocation(p, Exhausted)
    else if IdSpaceFull(p) then Allocation(p, IdSpaceExceeded)
    else Allocation(Grow(p), Got(Tag(p.overflowCapacity)))
  }

  datatype AppendResult = Ok | ErrExhausted | Panic

  datatype AppendOutcome = AppendOutcome(pool: Pool, manager: Manager, result: AppendResult)

  ghost predicate TailExists(p: Pool, mgr: Manager) {
    && Shape(p)
    && mgr.len / BLOCK_TOKENS < |mgr.table|
    && Materialised(p, mgr.table[mgr.len / BLOCK_TOKENS])
  }

  /** `write_token` at the tail, then `seq_len += 1`. */
  ghost function Store(p: Pool, mgr: Manager, k: seq<F32>, v: seq<F32>): AppendOutcome
    requires TailExists(p, mgr) && TokenFits(p, k, v)
  {
    var id, j := mgr.table[mgr.len / BLOCK_TOKENS], mgr.len % BLOCK_TOKENS;
    AppendOutcome(WriteValue(WriteKey(p, id, j, k), id, j, v), mgr.(len := mgr.len + 1), Ok)
  }

  /** `append`, start to finish. */
  ghost function Append(w: World, m: nat, k: seq<F32>, v: seq<F32>): AppendOutcome
    requires Invariant(w) && m < |w.managers| && w.managers[m].pc.Idle? && TokenFits(w.pool, k, v)
  {
    var mgr := w.managers[m];
    if mgr.len % BLOCK_TOKENS == 0 then
      var a := Allocate(w.pool);
      if a.result.Exhausted? then AppendOutcome(a.pool, mgr, ErrExhausted)
      else if a.result.IdSpaceExceeded? then AppendOutcome(a.pool, mgr, Panic)
      else
        FreshTailExists(w, m);
        Store(a.pool, mgr.(table := mgr.table + [a.result.id]), k, v)
    else
      OldTailExists(w, m);
      Store(w.pool, mgr, k, v)
  }

  lemma OldTailExists(w: World, m: nat)
    requires Invariant(w) && m < |w.managers| && w.managers[m].pc.Idle?
    requires w.managers[m].len % BLOCK_TOKENS != 0
    ensures TailExists(w.pool, w.managers[m])
  {
    hide Shape, Ledger;
    TableExists(w, m);
  }

  lemma FreshTailExists(w: World, m: nat)
    requires Invariant(w) && m < |w.managers| && w.managers[m].pc.Idle?
    requires w.managers[m].len % BLOCK_TOKENS == 0 && Allocate(w.pool).result.Got?
    ensures var a := Allocate(w.pool);
      TailExists(a.pool, w.managers[m].(table := w.managers[m].table + [a.result.id]))
  {
    PopKeepsShape(w.pool);
    if w.pool.free == [] && w.pool.overflowFree == [] {
      GrowKeepsShape(w.pool);
    }
  }

  /** Release a list of blocks in order. */
  function ReleaseEach(p: Pool, ids: seq<BlockId>): Pool
    decreases |ids|
  {
    if ids == [] then p else ReleaseEach(ReleaseOne(p, ids[0]), ids[1..])
  }

  // ----- Sequential operations are runs of critical sections, so they refine the simple picture

  ghost predicate SameViews(w: World, w': World)
    requires Invariant(w) && Invariant(w') && |w.managers| == |w'.managers|
  {
    forall b :: 0 <= b < |w.managers| ==> View(w', b) == View(w, b)
  }

  /** What an operation of manager `m` may do: `m` now reads `view`, nobody else sees anything. */
  ghost predicate OnlyChanges(w: World, w': World, m: nat, view: seq<Token>)
    requires Invariant(w) && Invariant(w')
  {
    && |w'.managers| == |w.managers| && m < |w.managers|
    && View(w', m) == view
    && (forall b :: 0 <= b < |w.managers| && b != m ==> View(w', b) == View(w, b) && w'.managers[b] == w.managers[b])
  }

  lemma QuietStep(w: World, a: Action, w': World)
    requires Sound(w) && Step(w, a).world == w'
    requires Step(w, a).event.Silent? || Step(w, a).event.Requested? || Step(w, a).event.Refused? || Step(w, a).event.Panicked?
    ensures Sound(w') && |w'.managers| == |w.managers| && SameViews(w, w')
  {
    hide Invariant, Step, View;
    StepRefines(w, a, w', Step(w, a).event);
  }

  lemma PutTwice(w: World, p: Pool, q: Pool, m: nat, x: Manager, y: Manager)
    requires m < |w.managers|
    ensures Put(Put(w, p, m, x), q, m, y) == Put(w, q, m, y)
    ensures w.managers[m] == y ==> Put(Put(w, p, m, x), q, m, y) == World(q, w.managers)
  {
  }

  lemma AllocateRefines(w: World, m: nat, k: seq<F32>, v: seq<F32>)
    requires Sound(w) && m < |w.managers| && w.managers[m].pc == PopPrimary(k, v)
    ensures var a := Allocate(w.pool);
      var w' := Put(w, a.pool, m, w.managers[m].(pc := if a.result.Got? then InFlight(a.result.id, k, v) else Idle));
      Sound(w') && SameViews(w, w')
  {
    hide Shape, Ledger, View, Consistent;
    var mgr, a := w.managers[m], Allocate(w.pool);
    var w1 := Step(w, Advance(m)).world;
    QuietStep(w, Advance(m), w1);
    if w.pool.free == [] {
      var mgr1 := mgr.(pc := PopOverflow(k, v));
      assert w1 == Put(w, w.pool, m, mgr1);
      var w2 := Step(w1, Advance(m)).world;
      QuietStep(w1, Advance(m), w2);
      if w.pool.overflowFree == [] {
        var mgr2 := mgr.(pc := GrowOverflow(k, v));
        assert w2 == Put(w1, w.pool, m, mgr2);
        PutTwice(w, w.pool, w.pool, m, mgr1, mgr2);
        var w3 := Step(w2, Advance(m)).world;
        QuietStep(w2, Advance(m), w3);
        PutTwice(w, w.pool, a.pool, m, mgr2, w3.managers[m]);
      } else {
        PutTwice(w, w.pool, a.pool, m, mgr1, w2.managers[m]);
      }
    }
  }

  lemma StoreRefines(w: World, m: nat, k: seq<F32>, v: seq<F32>)
    requires Sound(w) && m < |w.managers| && w.managers[m].pc == StoreKey(k, v)
    requires TailExists(w.pool, w.managers[m]) && TokenFits(w.pool, k, v)
    ensures var s := Store(w.pool, w.managers[m], k, v);
      var w' := Put(w, s.pool, m, s.manager.(pc := Idle));
      Sound(w') && OnlyChanges(w, w', m, View(w, m) + [Token(k, v)])
  {
    hide Shape, Ledger, View, Consistent, WriteKey, WriteValue;
    var w1 := Step(w, Advance(m)).world;
    QuietStep(w, Advance(m), w1);
    var last := Step(w1, Advance(m));
    StepRefines(w1, Advance(m), last.world, last.event);
    PutTwice(w, w1.pool, last.world.pool, m, w1.managers[m], last.world.managers[m]);
  }

  /** A complete append: on success its manager reads one more token, on failure nothing changes,
      and no other manager ever sees a difference. */
  lemma AppendRefines(w: World, m: nat, k: seq<F32>, v: seq<F32>)
    requires Sound(w) && m < |w.managers| && w.managers[m].pc.Idle? && TokenFits(w.pool, k, v)
    ensures var o := Append(w, m, k, v);
      var w' := Put(w, o.pool, m, o.manager);
      && Sound(w')
      && OnlyChanges(w, w', m, if o.result.Ok? then View(w, m) + [Token(k, v)] else View(w, m))
      && (!o.result.Ok? ==> w' == w)
  {
    hide Shape, Ledger, View, Consistent, WriteKey, WriteValue;
    var mgr := w.managers[m];
    var w1 := Step(w, BeginAppend(m, k, v)).world;
    QuietStep(w, BeginAppend(m, k, v), w1);
    if mgr.len % BLOCK_TOKENS == 0 {
      AllocateRefines(w1, m, k, v);
      var a := Allocate(w.pool);
      if a.result.Got? {
        FreshTailExists(w, m);
        var mgr2 := mgr.(pc := InFlight(a.result.id, k, v));
        var w2 := Put(w1, a.pool, m, mgr2);
        var w3 := Step(w2, Advance(m)).world;
        QuietStep(w2, Advance(m), w3);
        StoreRefines(w3, m, k, v);
        PutTwice(w, w.pool, a.pool, m, w1.managers[m], mgr2);
        PutTwice(w, a.pool, a.pool, m, mgr2, w3.managers[m]);
        PutTwice(w, a.pool, Append(w, m, k, v).pool, m, w3.managers[m], Append(w, m, k, v).manager);
      } else {
        PutTwice(w, w.pool, a.pool, m, w1.managers[m], mgr);
      }
    } else {
      OldTailExists(w, m);
      StoreRefines(w1, m, k, v);
      PutTwice(w, w.pool, Append(w, m, k, v).pool, m, w1.managers[m], Append(w, m, k, v).manager);
    }
  }

  lemma {:induction false} DrainRefines(w: World, m: nat)
    requires Sound(w) && m < |w.managers| && w.managers[m].pc.Draining?
    ensures var w' := Put(w, ReleaseEach(w.pool, w.managers[m].pc.rest), m, Manager([], 0, Idle));
      Sound(w') && OnlyChanges(w, w', m, [])
    decreases |w.managers[m].pc.rest|
  {
    hide Shape, Ledger, ReleaseOne;
    var rest := w.managers[m].pc.rest;
    var w1 := Step(w, Advance(m)).world;
    QuietStep(w, Advance(m), w1);
    if rest != [] {
      DrainRefines(w1, m);
      PutTwice(w, w1.pool, ReleaseEach(w.pool, rest), m, w1.managers[m], Manager([], 0, Idle));
    }
  }

  /** A complete `release_all`: its manager reads nothing any more, nobody else sees a difference. */
  lemma ReleaseRefines(w: World, m: nat)
    requires Sound(w) && m < |w.managers| && w.managers[m].pc.Idle?
    ensures var w' := Put(w, ReleaseEach(w.pool, w.managers[m].table), m, Manager([], 0, Idle));
      Sound(w') && OnlyChanges(w, w', m, [])
  {
    hide Shape, Ledger, View;
    var first := Step(w, BeginRelease(m));
    StepRefines(w, BeginRelease(m), first.world, first.event);
    DrainRefines(first.world, m);
    PutTwice(w, w.pool, ReleaseEach(w.pool, w.managers[m].table), m, first.world.managers[m], Manager([], 0, Idle));
  }

  /** A shrink changes no manager's view. */
  lemma ShrinkRefines(w: World)
    requires Sound(w)
    ensures var w' := World(ShrinkOverflow(w.pool), w.managers);
      Sound(w') && SameViews(w, w')
  {
    QuietStep(w, Action.Shrink, World(ShrinkOverflow(w.pool), w.managers));
  }

  /** `allocate` refuses exactly when the primary list is empty and every overflow block the cap
      allows is in use. */
  lemma RefusedExactlyAtCap(w: World)
    requires Invariant(w)
    ensures Allocate(w.pool).result.Exhausted? <==>
      w.pool.free == [] && w.pool.maxOverflow.Some? && OverflowInUse(w.pool) == w.pool.maxOverflow.value
  {
    hide Shape, Ledger, AllConsistent;
    OverflowFreeFits(w);
    CapacityFits(w.pool);
  }

  /** The 31-bit assertion stops `allocate` exactly when the primary list is empty, all 2^31 overflow ids are
      in use, and the cap, if there is one, lies beyond them. */
  lemma AbortsExactlyAtIdSpace(w: World)
    requires Invariant(w)
    ensures Allocate(w.pool).result.IdSpaceExceeded? <==>
      && w.pool.free == [] && OverflowInUse(w.pool) == OVERFLOW_BIT
      && (w.pool.maxOverflow.None? || w.pool.maxOverflow.value > OVERFLOW_BIT)
  {
    hide Shape, Ledger, AllConsistent;
    OverflowFreeFits(w);
    CapacityFits(w.pool);
  }

  /** What `allocate` hands out: a block nobody holds, from the overflow slab only when no primary block is free,
      and a new block only when no existing one is free. */
  lemma AllocatesFreeBlock(w: World)
    requires Invariant(w) && Allocate(w.pool).result.Got?
    ensures var p, q, id := w.pool, Allocate(w.pool).pool, Allocate(w.pool).result.id;
      && (IsOverflow(id) <==> p.free == [])
      && q.overflowCapacity == p.overflowCapacity + (if p.free == [] && OverflowInUse(p) == p.overflowCapacity then 1 else 0)
      && UsedBlocks(q) == UsedBlocks(p) + 1
      && (forall m :: 0 <= m < |w.managers| ==> id !in Held(w.managers[m]))
  {
    hide AllConsistent, HeldAll, Span, Tagged;
    var p, id := w.pool, Allocate(w.pool).result.id;
    OverflowFreeFits(w);
    PrimaryFreeFits(w);
    forall m | 0 <= m < |w.managers|
      ensures id !in Held(w.managers[m])
    {
      if id in Held(w.managers[m]) {
        HeldExists(w, m, id);
        HeldIsNotFree(w, m, id);
      }
    }
  }

  lemma HeldIsNotFree(w: World, m: nat, id: BlockId)
    requires Invariant(w) && m < |w.managers| && id in Held(w.managers[m])
    ensures id !in w.pool.free && (IsOverflow(id) ==> Index(id) !in w.pool.overflowFree)
  {
    hide AllConsistent, HeldAll, Span, Held, Shape;
    HeldIsIncluded(w.managers, m);
    assert multiset(Held(w.managers[m]))[id] >= 1;
    AllIdsCount(w.pool, id);
    var free: multiset<nat> := multiset(w.pool.free);
    assert (free + Tagged(w.pool.overflowFree) + HeldAll(w.managers))[id] <= 1;
    assert free[id] >= 1 <==> id in w.pool.free;
    if IsOverflow(id) && Index(id) in w.pool.overflowFree {
      TaggedHas(w.pool.overflowFree, Index(id));
    }
  }

  lemma {:induction false} TaggedHas(indices: seq<nat>, index: nat)
    requires index in indices
    ensures Tagged(indices)[index + OVERFLOW_BIT] >= 1
  {
    if index != indices[|indices| - 1] {
      TaggedHas(indices[..|indices| - 1], index);
    }
  }

  /** The free lists are stacks: the block released last is the next one handed out, which undoes the release. */
  lemma AllocateUndoesRelease(p: Pool, id: BlockId)
    requires Shape(p) && Materialised(p, id) && (IsOverflow(id) ==> p.free == [])
    ensures Shape(ReleaseOne(p, id)) && Allocate(ReleaseOne(p, id)) == Allocation(p, Got(id))
  {
    ReleaseKeepsShape(p, id);
    var q := ReleaseOne(p, id);
    if IsOverflow(id) {
      assert q.overflowFree[..|q.overflowFree| - 1] == p.overflowFree;
    } else {
      assert q.free[..|q.free| - 1] == p.free;
    }
  }

  lemma CapacityFits(p: Pool)
    requires Shape(p)
    ensures p.overflowCapacity <= OVERFLOW_BIT && (p.maxOverflow.Some? ==> p.overflowCapacity <= p.maxOverflow.value)
  {
  }

  // ----- Sequential runs: overflow capacity is a high-water mark

  datatype Operation = DoAppend(m: nat, k: seq<F32>, v: seq<F32>) | DoRelease(m: nat) | DoShrink

  ghost predicate AllIdle(w: World) {
    forall m :: 0 <= m < |w.managers| ==> w.managers[m].pc.Idle?
  }

  ghost predicate Allowed(w: World, op: Operation) {
    match op
    case DoAppend(m, k, v) => m < |w.managers| && TokenFits(w.pool, k, v)
    case DoRelease(m) => m < |w.managers|
    case DoShrink => true
  }

  /** One complete operation. */
  ghost function Perform(w: World, op: Operation): World
    requires Sound(w) && AllIdle(w) && Allowed(w, op)
  {
    match op
    case DoAppend(m, k, v) => Put(w, Append(w, m, k, v).pool, m, Append(w, m, k, v).manager)
    case DoRelease(m) => Put(w, ReleaseEach(w.pool, w.managers[m].table), m, Manager([], 0, Idle))
    case DoShrink => World(ShrinkOverflow(w.pool), w.managers)
  }

  lemma PerformIsSound(w: World, op: Operation)
    requires Sound(w) && AllIdle(w) && Allowed(w, op)
    ensures Sound(Perform(w, op)) && AllIdle(Perform(w, op))
  {
    hide Invariant, KeysStored, View;
    match op
    case DoAppend(m, k, v) => AppendRefines(w, m, k, v);
    case DoRelease(m) => ReleaseRefines(w, m);
    case DoShrink => ShrinkRefines(w);
  }

  /** The most overflow blocks in use at once since the last shrink that found none in use. */
  ghost function PeakAfter(w: World, op: Operation, peak: nat): nat
    requires Sound(w) && AllIdle(w) && Allowed(w, op)
  {
    if op.DoShrink? && OverflowInUse(w.pool) == 0 then 0 else Max(peak, OverflowInUse(Perform(w, op).pool))
  }

  lemma {:induction false} ReleaseEachKeepsCapacity(p: Pool, ids: seq<BlockId>)
    ensures ReleaseEach(p, ids).overflowCapacity == p.overflowCapacity
    ensures |ReleaseEach(p, ids).overflowFree| >= |p.overflowFree|
    decreases |ids|
  {
    if ids != [] {
      ReleaseEachKeepsCapacity(ReleaseOne(p, ids[0]), ids[1..]);
    }
  }

  lemma CapacityIsPeak(w: World, op: Operation, peak: nat)
    requires Sound(w) && AllIdle(w) && Allowed(w, op) && w.pool.overflowCapacity == peak
    ensures Perform(w, op).pool.overflowCapacity == PeakAfter(w, op, peak)
  {
    hide Shape, Ledger, KeysStored, WriteKey, WriteValue;
    OverflowFreeFits(w);
    match op
    case DoAppend(m, k, v) => AppendCapacity(w, m, k, v);
    case DoRelease(m) => ReleaseEachKeepsCapacity(w.pool, w.managers[m].table);
    case DoShrink =>
  }

  lemma AppendCapacity(w: World, m: nat, k: seq<F32>, v: seq<F32>)
    requires Invariant(w) && m < |w.managers| && w.managers[m].pc.Idle? && TokenFits(w.pool, k, v)
    ensures var q, a := Append(w, m, k, v).pool, Allocate(w.pool).pool;
      if w.managers[m].len % BLOCK_TOKENS == 0
      then (q.overflowCapacity, |q.overflowFree|) == (a.overflowCapacity, |a.overflowFree|)
      else (q.overflowCapacity, |q.overflowFree|) == (w.pool.overflowCapacity, |w.pool.overflowFree|)
  {
    hide Shape, Ledger;
  }

  /** Main theorem: over any sequential run, overflow capacity is the peak of overflow blocks in use
      since the last shrink that found none in use. */
  lemma {:induction false} OverflowIsHighWaterMark(w: World, ops: seq<Operation>, peak: nat)
    requires Sound(w) && AllIdle(w) && w.pool.overflowCapacity == peak
    ensures var (w', peak') := PerformAll(w, ops, peak); w'.pool.overflowCapacity == peak'
    decreases |ops|
  {
    hide Invariant, KeysStored, AllIdle, Perform, PeakAfter, Allowed;
    if ops != [] {
      if Allowed(w, ops[0]) {
        PerformIsSound(w, ops[0]);
        CapacityIsPeak(w, ops[0], peak);
        OverflowIsHighWaterMark(Perform(w, ops[0]), ops[1..], PeakAfter(w, ops[0], peak));
      } else {
        OverflowIsHighWaterMark(w, ops[1..], peak);
      }
    }
  }

  /** Run operations one after the other, passing over those that name no manager or the wrong length. */
  ghost function PerformAll(w: World, ops: seq<Operation>, peak: nat): (World, nat)
    requires Sound(w) && AllIdle(w)
    decreases |ops|
  {
    if ops == [] then (w, peak)
    else if !Allowed(w, ops[0]) then PerformAll(w, ops[1..], peak)
    else
      PerformIsSound(w, ops[0]);
      PerformAll(Perform(w, ops[0]), ops[1..], PeakAfter(w, ops[0], peak))
  }
}
