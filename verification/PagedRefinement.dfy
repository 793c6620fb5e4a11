/**
 The paged pool refines the simple picture: each manager is an append-only sequence of tokens that
 no other manager's activity can touch. Proved for every schedule of critical sections.
 */
module PagedRefinement {
  import opened Machine
  import opened Options
  import opened Floats
  import opened PagedPool
  import opened PagedProtocol

  // ----- What a manager reads

  /** The ids a manager reads through exist; the ledger provides it. */
  ghost predicate Readable(p: Pool, mgr: Manager) {
    && Shape(p)
    && mgr.len <= BLOCK_TOKENS * |mgr.table|
    && (forall i :: 0 <= i < |mgr.table| ==> Materialised(p, mgr.table[i]))
  }

  /** `key(i)` and `value(i)`: block `i / 16`, offset `i % 16`. */
  ghost function TokenAt(p: Pool, table: seq<BlockId>, i: nat): Token
    requires Shape(p) && i / BLOCK_TOKENS < |table| && Materialised(p, table[i / BLOCK_TOKENS])
  {
    var id := table[i / BLOCK_TOKENS];
    Token(ReadKey(p, id, i % BLOCK_TOKENS), ReadValue(p, id, i % BLOCK_TOKENS))
  }

  ghost function ViewOf(p: Pool, mgr: Manager): (s: seq<Token>)
    requires Readable(p, mgr)
  {
    seq(mgr.len, i requires 0 <= i < mgr.len => TokenAt(p, mgr.table, i))
  }

  lemma ManagerIsReadable(w: World, m: nat)
    requires Invariant(w) && m < |w.managers| && !w.managers[m].pc.Draining?
    ensures Readable(w.pool, w.managers[m])
  {
    var mgr := w.managers[m];
    forall i | 0 <= i < |mgr.table|
      ensures Materialised(w.pool, mgr.table[i])
    {
      assert Held(mgr)[i] == mgr.table[i];
      HeldExists(w, m, mgr.table[i]);
    }
  }

  /** Everything manager `m` can read back: all its tokens, or none once a release has begun. */
  ghost function View(w: World, m: nat): seq<Token>
    requires Invariant(w) && m < |w.managers|
  {
    if w.managers[m].pc.Draining? then []
    else
      ManagerIsReadable(w, m);
      ViewOf(w.pool, w.managers[m])
  }

  /** The simple form of a manager: an append-only sequence. */
  ghost function Effect(e: Event, m: nat, view: seq<Token>): seq<Token> {
    match e
    case Appended(m', token) => if m' == m then view + [token] else view
    case Cleared(m') => if m' == m then [] else view
    case _ => view
  }

  // ----- Frames: which slots a step can change

  /** The blocks `ids` read the same through both pools. */
  ghost predicate SlotsKept(p: Pool, q: Pool, ids: seq<BlockId>) {
    && Shape(p) && Shape(q)
    && (forall i :: 0 <= i < |ids| ==> Materialised(p, ids[i]) && Materialised(q, ids[i]))
    && (forall i, j :: 0 <= i < |ids| && 0 <= j < BLOCK_TOKENS ==>
          && ReadKey(p, ids[i], j) == ReadKey(q, ids[i], j)
          && ReadValue(p, ids[i], j) == ReadValue(q, ids[i], j))
  }

  /** Slots kept means the manager's view is kept. */
  lemma ViewKept(p: Pool, q: Pool, mgr: Manager)
    requires Readable(p, mgr) && SlotsKept(p, q, mgr.table)
    ensures Readable(q, mgr) && ViewOf(q, mgr) == ViewOf(p, mgr)
  {
    hide Shape, ReadKey, ReadValue;
    forall i | 0 <= i < mgr.len
      ensures TokenAt(q, mgr.table, i) == TokenAt(p, mgr.table, i)
    {
      assert mgr.table[i / BLOCK_TOKENS] == mgr.table[i / BLOCK_TOKENS];
    }
    assert ViewOf(q, mgr) == ViewOf(p, mgr);
  }

  /** Steps that only touch the free lists keep every slot. */
  lemma ListsOnlyKeepSlots(p: Pool, q: Pool, ids: seq<BlockId>)
    requires Shape(p) && Shape(q) && q == p.(free := q.free, overflowFree := q.overflowFree)
    requires forall i :: 0 <= i < |ids| ==> Materialised(p, ids[i])
    ensures SlotsKept(p, q, ids)
  {
    hide Shape, ReadSlot;
  }

  lemma GrowKeepsSlots(p: Pool, ids: seq<BlockId>)
    requires Shape(p) && Shape(Grow(p)) && forall i :: 0 <= i < |ids| ==> Materialised(p, ids[i])
    ensures SlotsKept(p, Grow(p), ids)
  {
    hide ReadSlot;
    forall i, j | 0 <= i < |ids| && 0 <= j < BLOCK_TOKENS
      ensures ReadKey(p, ids[i], j) == ReadKey(Grow(p), ids[i], j)
      ensures ReadValue(p, ids[i], j) == ReadValue(Grow(p), ids[i], j)
    {
      if IsOverflow(ids[i]) {
        ReadAfterGrow(p.overflowKeys, p.kvDim, p.overflowCapacity, Index(ids[i]), j);
        ReadAfterGrow(p.overflowValues, p.kvDim, p.overflowCapacity, Index(ids[i]), j);
      }
    }
  }

  /** A shrink that goes ahead finds no overflow id in anyone's hands. */
  lemma ShrinkSparesHeld(w: World, m: nat, id: BlockId)
    requires Invariant(w) && CanShrink(w.pool) && m < |w.managers| && id in Held(w.managers[m])
    ensures !IsOverflow(id)
  {
    hide Shape, Span, Tagged, HeldAll;
    ShrinkFindsAllFree(w);
    HeldIsIncluded(w.managers, m);
    assert multiset(Held(w.managers[m]))[id] >= 1;
    AllIdsCount(w.pool, id);
    HeldExists(w, m, id);
    SpanCount(OVERFLOW_BIT, w.pool.overflowCapacity, id);
  }

  ghost predicate HoldsNoOverflow(managers: seq<Manager>) {
    forall m, i :: 0 <= m < |managers| && 0 <= i < |Held(managers[m])| ==> Held(managers[m])[i] < OVERFLOW_BIT
  }

  lemma {:induction false} NotHeld(managers: seq<Manager>, x: nat)
    requires HoldsNoOverflow(managers) && x >= OVERFLOW_BIT
    ensures HeldAll(managers)[x] == 0
  {
    if managers != [] {
      NotHeld(managers[..|managers| - 1], x);
      assert x !in Held(managers[|managers| - 1]);
    }
  }

  /** When nobody holds an overflow id they are all free. */
  lemma NoneInUse(w: World)
    requires Invariant(w) && HoldsNoOverflow(w.managers)
    ensures |w.pool.overflowFree| == w.pool.overflowCapacity
  {
    hide Span, Tagged, HeldAll, HoldsNoOverflow, AllConsistent;
    var p := w.pool;
    var tagged, span := Tagged(p.overflowFree), Span(OVERFLOW_BIT, p.overflowCapacity);
    OverflowFreeFits(w);
    forall x: nat
      ensures span[x] <= tagged[x]
    {
      SpanCount(OVERFLOW_BIT, p.overflowCapacity, x);
      SpanCount(0, Slots(p), x);
      if span[x] > 0 {
        NotHeld(w.managers, x);
        assert x !in p.free;
        var free: multiset<nat> := multiset(p.free);
        assert (free + tagged + HeldAll(w.managers))[x] == AllIds(p)[x];
      }
    }
    TaggedCount(p.overflowFree, 0);
    SpanSize(OVERFLOW_BIT, p.overflowCapacity);
    assert tagged == span + (tagged - span);
  }

  lemma SomeoneHoldsOverflow(w: World) returns (m: nat, id: BlockId)
    requires Invariant(w) && !HoldsNoOverflow(w.managers)
    ensures m < |w.managers| && id in Held(w.managers[m]) && IsOverflow(id) && w.pool.overflowCapacity > 0
  {
    hide Shape, Ledger, AllConsistent;
    var i: nat;
    m, i :| m < |w.managers| && i < |Held(w.managers[m])| && Held(w.managers[m])[i] >= OVERFLOW_BIT;
    id := Held(w.managers[m])[i];
    HeldExists(w, m, id);
  }

  /** A shrink gives the overflow slab back exactly when no manager holds an overflow block, free primary blocks
      or not, and otherwise leaves the pool as it is. */
  lemma ShrinkGoesAheadExactlyWhen(w: World)
    requires Invariant(w)
    ensures ShrinkOverflow(w.pool).overflowCapacity == 0 <==> HoldsNoOverflow(w.managers)
    ensures OverflowInUse(w.pool) == 0 <==> HoldsNoOverflow(w.managers)
    ensures ShrinkOverflow(w.pool) ==
      if HoldsNoOverflow(w.managers)
      then w.pool.(overflowKeys := [], overflowValues := [], overflowFree := [], overflowCapacity := 0)
      else w.pool
  {
    hide Ledger, HoldsNoOverflow, AllConsistent;
    if HoldsNoOverflow(w.managers) {
      NoneInUse(w);
    } else {
      var m, id := SomeoneHoldsOverflow(w);
      if CanShrink(w.pool) {
        ShrinkSparesHeld(w, m, id);
      }
    }
  }

  lemma ShrinkKeepsSlots(w: World, m: nat)
    requires Invariant(w) && m < |w.managers| && Shape(ShrinkOverflow(w.pool))
    ensures SlotsKept(w.pool, ShrinkOverflow(w.pool), w.managers[m].table)
  {
    hide ReadSlot, Shape, Ledger;
    var mgr := w.managers[m];
    forall i | 0 <= i < |mgr.table|
      ensures Materialised(w.pool, mgr.table[i])
      ensures CanShrink(w.pool) ==> !IsOverflow(mgr.table[i])
    {
      assert Held(mgr)[i] == mgr.table[i];
      HeldExists(w, m, mgr.table[i]);
      if CanShrink(w.pool) {
        ShrinkSparesHeld(w, m, mgr.table[i]);
      }
    }
  }

  /** A store by one manager leaves every block it does not write alone. */
  lemma StoreKeepsOtherBlocks(p: Pool, id: BlockId, j: nat, data: seq<F32>, ids: seq<BlockId>)
    requires Shape(p) && Materialised(p, id) && j < BLOCK_TOKENS && |data| == p.kvDim
    requires forall i :: 0 <= i < |ids| ==> Materialised(p, ids[i]) && ids[i] != id
    ensures SlotsKept(p, WriteKey(p, id, j, data), ids)
    ensures SlotsKept(p, WriteValue(p, id, j, data), ids)
  {
    hide ReadKey, ReadValue;
    forall i, j' | 0 <= i < |ids| && 0 <= j' < BLOCK_TOKENS
      ensures ReadKey(p, ids[i], j') == ReadKey(WriteKey(p, id, j, data), ids[i], j')
      ensures ReadValue(p, ids[i], j') == ReadValue(WriteKey(p, id, j, data), ids[i], j')
      ensures ReadKey(p, ids[i], j') == ReadKey(WriteValue(p, id, j, data), ids[i], j')
      ensures ReadValue(p, ids[i], j') == ReadValue(WriteValue(p, id, j, data), ids[i], j')
    {
      ReadAfterWriteKey(p, id, j, data, ids[i], j');
      ReadAfterWriteValue(p, id, j, data, ids[i], j');
    }
  }

  // ----- A half-written token: the key is in the slab before the value is

  ghost function TailKey(w: World, m: nat): seq<F32>
    requires Invariant(w) && m < |w.managers| && w.managers[m].pc.StoreValue?
  {
    TailIsWritable(w, m);
    ReadKey(w.pool, w.managers[m].table[w.managers[m].len / BLOCK_TOKENS], w.managers[m].len % BLOCK_TOKENS)
  }

  ghost predicate KeysStored(w: World)
    requires Invariant(w)
  {
    forall m :: 0 <= m < |w.managers| && w.managers[m].pc.StoreValue? ==> TailKey(w, m) == w.managers[m].pc.k
  }

  ghost predicate Sound(w: World) { Invariant(w) && KeysStored(w) }

  /** The slot about to be written is none of the slots already readable. */
  lemma TailSlotIsNew(w: World, m: nat, i: nat)
    requires Invariant(w) && m < |w.managers| && i < w.managers[m].len
    requires w.managers[m].pc.StoreKey? || w.managers[m].pc.StoreValue?
    ensures i / BLOCK_TOKENS < |w.managers[m].table|
    ensures (w.managers[m].table[i / BLOCK_TOKENS], i % BLOCK_TOKENS)
         != (w.managers[m].table[w.managers[m].len / BLOCK_TOKENS], w.managers[m].len % BLOCK_TOKENS)
  {
    hide Shape, Ledger;
    var mgr := w.managers[m];
    var b, t := i / BLOCK_TOKENS, mgr.len / BLOCK_TOKENS;
    if b != t && mgr.table[b] == mgr.table[t] {
      assert Held(mgr)[b] == Held(mgr)[t];
      HeldOnce(w, m, b, m, t);
    }
  }

  /** What one manager's step leaves alone: every other manager and every slot that one holds. */
  lemma OthersKept(w: World, m: nat, b: nat)
    requires Invariant(w) && m < |w.managers| && b < |w.managers| && b != m
    requires Invariant(AdvanceManager(w, m).world)
    ensures |AdvanceManager(w, m).world.managers| == |w.managers|
    ensures AdvanceManager(w, m).world.managers[b] == w.managers[b]
    ensures SlotsKept(w.pool, AdvanceManager(w, m).world.pool, w.managers[b].table)
  {
    hide Shape, Ledger, ReadKey, ReadValue, SlotsKept, WriteKey, WriteValue;
    var mgr, ids := w.managers[m], w.managers[b].table;
    var q := AdvanceManager(w, m).world.pool;
    TableExists(w, b);
    match mgr.pc
    case Idle => ListsOnlyKeepSlots(w.pool, q, ids);
    case PopPrimary(_, _) => ListsOnlyKeepSlots(w.pool, q, ids);
    case PopOverflow(_, _) => ListsOnlyKeepSlots(w.pool, q, ids);
    case GrowOverflow(_, _) =>
      if AtOverflowCap(w.pool) || IdSpaceFull(w.pool) {
        ListsOnlyKeepSlots(w.pool, q, ids);
      } else {
        GrowKeepsSlots(w.pool, ids);
      }
    case InFlight(_, _, _) => ListsOnlyKeepSlots(w.pool, q, ids);
    case StoreKey(k, v) =>
      TailIsWritable(w, m);
      TailIsForeign(w, m, b);
      StoreKeepsOtherBlocks(w.pool, mgr.table[mgr.len / BLOCK_TOKENS], mgr.len % BLOCK_TOKENS, k, ids);
    case StoreValue(k, v) =>
      TailIsWritable(w, m);
      TailIsForeign(w, m, b);
      StoreKeepsOtherBlocks(w.pool, mgr.table[mgr.len / BLOCK_TOKENS], mgr.len % BLOCK_TOKENS, v, ids);
    case Draining(_) => ListsOnlyKeepSlots(w.pool, q, ids);
  }

  lemma TableExists(w: World, b: nat)
    requires Invariant(w) && b < |w.managers|
    ensures forall i :: 0 <= i < |w.managers[b].table| ==> Materialised(w.pool, w.managers[b].table[i])
  {
    hide Shape, Ledger;
    forall i | 0 <= i < |w.managers[b].table|
      ensures Materialised(w.pool, w.managers[b].table[i])
    {
      assert Held(w.managers[b])[i] == w.managers[b].table[i];
      HeldExists(w, b, w.managers[b].table[i]);
    }
  }

  lemma TailIsForeign(w: World, m: nat, b: nat)
    requires Writable(w, m) && Ledger(w) && b < |w.managers| && b != m
    ensures forall i :: 0 <= i < |w.managers[b].table| ==>
      w.managers[b].table[i] != w.managers[m].table[w.managers[m].len / BLOCK_TOKENS]
  {
    hide Shape, Ledger;
    var t := w.managers[m].len / BLOCK_TOKENS;
    forall i | 0 <= i < |w.managers[b].table|
      ensures w.managers[b].table[i] != w.managers[m].table[t]
    {
      if w.managers[b].table[i] == w.managers[m].table[t] {
        assert Held(w.managers[b])[i] == Held(w.managers[m])[t];
        HeldOnce(w, b, i, m, t);
      }
    }
  }

  // ----- Refinement: a step changes one view at most, and only by its event

  /** The acting manager's own view over a step that is not a store. */
  lemma OwnViewKept(w: World, m: nat, w': World)
    requires Invariant(w) && m < |w.managers| && Invariant(w') && w' == AdvanceManager(w, m).world
    requires !w.managers[m].pc.StoreKey? && !w.managers[m].pc.StoreValue?
    ensures View(w', m) == View(w, m)
  {
    hide Shape, Ledger, SlotsKept;
    var mgr := w.managers[m];
    if !mgr.pc.Draining? {
      ManagerIsReadable(w, m);
      TableExists(w, m);
      if mgr.pc.GrowOverflow? && !AtOverflowCap(w.pool) && !IdSpaceFull(w.pool) {
        GrowKeepsSlots(w.pool, mgr.table);
      } else {
        ListsOnlyKeepSlots(w.pool, w'.pool, mgr.table);
      }
      ViewKept(w.pool, w'.pool, mgr);
      if mgr.pc.InFlight? {
        assert forall i :: 0 <= i < mgr.len ==> w'.managers[m].table[i / BLOCK_TOKENS] == mgr.table[i / BLOCK_TOKENS];
      }
      assert View(w', m) == ViewOf(w'.pool, mgr);
    }
  }

  lemma StoreKeyView(w: World, m: nat, w': World)
    requires Invariant(w) && m < |w.managers| && w.managers[m].pc.StoreKey?
    requires Invariant(w') && w' == AdvanceManager(w, m).world
    ensures View(w', m) == View(w, m)
    ensures TailKey(w', m) == w'.managers[m].pc.k
  {
    hide Shape, Ledger, ReadKey, ReadValue, WriteKey;
    var mgr := w.managers[m];
    TailIsWritable(w, m);
    ManagerIsReadable(w, m);
    ManagerIsReadable(w', m);
    var tail, j := mgr.table[mgr.len / BLOCK_TOKENS], mgr.len % BLOCK_TOKENS;
    forall i | 0 <= i < mgr.len
      ensures TokenAt(w'.pool, mgr.table, i) == TokenAt(w.pool, mgr.table, i)
    {
      TailSlotIsNew(w, m, i);
      ReadAfterWriteKey(w.pool, tail, j, mgr.pc.k, mgr.table[i / BLOCK_TOKENS], i % BLOCK_TOKENS);
    }
    assert View(w', m) == View(w, m);
    ReadAfterWriteKey(w.pool, tail, j, mgr.pc.k, tail, j);
  }

  lemma StoreValueView(w: World, m: nat, w': World)
    requires Invariant(w) && m < |w.managers| && w.managers[m].pc.StoreValue?
    requires Invariant(w') && w' == AdvanceManager(w, m).world
    requires TailKey(w, m) == w.managers[m].pc.k
    ensures View(w', m) == View(w, m) + [Token(w.managers[m].pc.k, w.managers[m].pc.v)]
  {
    hide Shape, Ledger, ReadKey, ReadValue, WriteValue;
    var mgr := w.managers[m];
    TailIsWritable(w, m);
    ManagerIsReadable(w, m);
    ManagerIsReadable(w', m);
    var tail, j := mgr.table[mgr.len / BLOCK_TOKENS], mgr.len % BLOCK_TOKENS;
    forall i | 0 <= i < mgr.len
      ensures TokenAt(w'.pool, mgr.table, i) == TokenAt(w.pool, mgr.table, i)
    {
      TailSlotIsNew(w, m, i);
      ReadAfterWriteValue(w.pool, tail, j, mgr.pc.v, mgr.table[i / BLOCK_TOKENS], i % BLOCK_TOKENS);
    }
    ReadAfterWriteValue(w.pool, tail, j, mgr.pc.v, tail, j);
    assert TokenAt(w'.pool, mgr.table, mgr.len) == Token(mgr.pc.k, mgr.pc.v);
    assert View(w', m) == View(w, m) + [Token(mgr.pc.k, mgr.pc.v)];
  }

  /** A manager whose own fields and slots are kept keeps its view and its half-written key. */
  lemma BystanderKept(w: World, w': World, b: nat)
    requires Invariant(w) && Invariant(w') && b < |w.managers| == |w'.managers|
    requires w'.managers[b] == w.managers[b] && SlotsKept(w.pool, w'.pool, w.managers[b].table)
    ensures View(w', b) == View(w, b)
    ensures w.managers[b].pc.StoreValue? ==> TailKey(w', b) == TailKey(w, b)
  {
    hide Shape, Ledger, ReadKey, ReadValue;
    var mgr := w.managers[b];
    if !mgr.pc.Draining? {
      ManagerIsReadable(w, b);
      ViewKept(w.pool, w'.pool, mgr);
    }
    if mgr.pc.StoreValue? {
      TailIsWritable(w, b);
      assert mgr.table[mgr.len / BLOCK_TOKENS] == mgr.table[mgr.len / BLOCK_TOKENS];
    }
  }

  /** One critical section of manager `m`: its event says what happens to its view; others see nothing. */
  lemma AdvanceRefines(w: World, m: nat, w': World, e: Event, b: nat)
    requires Sound(w) && m < |w.managers| && b < |w.managers|
    requires Invariant(w') && Outcome(w', e) == AdvanceManager(w, m)
    ensures View(w', b) == Effect(e, b, View(w, b))
    ensures w'.managers[b].pc.StoreValue? ==> TailKey(w', b) == w'.managers[b].pc.k
  {
    hide Shape, Ledger, SlotsKept, TailKey, View;
    if b != m {
      OthersKept(w, m, b);
      BystanderKept(w, w', b);
    } else if w.managers[m].pc.StoreKey? {
      StoreKeyView(w, m, w');
    } else if w.managers[m].pc.StoreValue? {
      StoreValueView(w, m, w');
    } else {
      OwnViewKept(w, m, w');
    }
  }

  /** Every action, for every manager: the pool behaves like independent append-only sequences. */
  lemma StepRefines(w: World, a: Action, w': World, e: Event)
    requires Sound(w) && Step(w, a) == Outcome(w', e)
    ensures Sound(w')
    ensures forall b :: 0 <= b < |w.managers| ==> View(w', b) == Effect(e, b, View(w, b))
  {
    hide Shape, Ledger, SlotsKept, TailKey, View;
    StepKeepsInvariant(w, a);
    forall b | 0 <= b < |w.managers|
      ensures View(w', b) == Effect(e, b, View(w, b))
      ensures w'.managers[b].pc.StoreValue? ==> TailKey(w', b) == w'.managers[b].pc.k
    {
      match a
      case BeginAppend(m, _, _) => BeginRefines(w, a, w', e, b);
      case BeginRelease(m) => BeginRefines(w, a, w', e, b);
      case Advance(m) =>
        if m < |w.managers| {
          AdvanceRefines(w, m, w', e, b);
        } else {
          assert w' == w;
        }
      case Shrink =>
        ShrinkKeepsSlots(w, b);
        BystanderKept(w, w', b);
    }
  }

  lemma BeginRefines(w: World, a: Action, w': World, e: Event, b: nat)
    requires Sound(w) && Step(w, a) == Outcome(w', e) && Invariant(w') && b < |w.managers|
    requires a.BeginAppend? || a.BeginRelease?
    ensures View(w', b) == Effect(e, b, View(w, b))
    ensures w'.managers[b].pc.StoreValue? ==> TailKey(w', b) == w'.managers[b].pc.k
  {
    hide Shape, Ledger, SlotsKept;
    TableExists(w, b);
    ListsOnlyKeepSlots(w.pool, w'.pool, w.managers[b].table);
    if w'.managers[b] == w.managers[b] {
      BystanderKept(w, w', b);
    } else if a.BeginAppend? {
      ManagerIsReadable(w, b);
      assert View(w', b) == ViewOf(w.pool, w.managers[b]);
    }
  }

  // ----- Whole runs

  datatype Trace = Trace(world: World, events: seq<Event>)

  /** Run a schedule; the events are in the order they happened. */
  ghost function Run(w: World, schedule: seq<Action>): Trace
    requires Invariant(w)
    decreases |schedule|
  {
    if schedule == [] then Trace(w, [])
    else
      StepKeepsInvariant(w, schedule[0]);
      var step := Step(w, schedule[0]);
      var rest := Run(step.world, schedule[1..]);
      Trace(rest.world, [step.event] + rest.events)
  }

  ghost function Replay(events: seq<Event>, m: nat, view: seq<Token>): seq<Token> {
    if events == [] then view else Replay(events[1..], m, Effect(events[0], m, view))
  }

  function RequestOf(e: Event, m: nat): seq<Token> {
    if e.Requested? && e.m == m then [e.token] else []
  }

  function AnswerOf(e: Event, m: nat): seq<Token> {
    if (e.Appended? || e.Refused? || e.Panicked?) && e.m == m then [e.token] else []
  }

  /** The tokens `m` was asked to append, in order. */
  ghost function Requests(events: seq<Event>, m: nat): seq<Token> {
    if events == [] then [] else RequestOf(events[0], m) + Requests(events[1..], m)
  }

  /** The tokens whose append finished, one way or the other, in order. */
  ghost function Answers(events: seq<Event>, m: nat): seq<Token> {
    if events == [] then [] else AnswerOf(events[0], m) + Answers(events[1..], m)
  }

  ghost function Pending(mgr: Manager): seq<Token> {
    match mgr.pc
    case Idle => []
    case Draining(_) => []
    case PopPrimary(k, v) => [Token(k, v)]
    case PopOverflow(k, v) => [Token(k, v)]
    case GrowOverflow(k, v) => [Token(k, v)]
    case InFlight(_, k, v) => [Token(k, v)]
    case StoreKey(k, v) => [Token(k, v)]
    case StoreValue(k, v) => [Token(k, v)]
  }

  lemma AdvanceAnswers(w: World, m: nat, o: Outcome)
    requires Invariant(w) && m < |w.managers| && o == AdvanceManager(w, m)
    ensures Pending(w.managers[m]) == AnswerOf(o.event, m) + Pending(o.world.managers[m])
    ensures RequestOf(o.event, m) == []
  {
    hide Invariant, Writable, WriteKey, WriteValue, ReleaseOne, Grow, AtOverflowCap, IdSpaceFull;
  }

  lemma AdvanceAnswersOthers(w: World, m: nat, o: Outcome, b: nat)
    requires Invariant(w) && m < |w.managers| && o == AdvanceManager(w, m) && b != m && b < |w.managers|
    ensures o.world.managers[b] == w.managers[b] && AnswerOf(o.event, b) == RequestOf(o.event, b) == []
  {
    hide Invariant, Writable, WriteKey, WriteValue, ReleaseOne, Grow, AtOverflowCap, IdSpaceFull;
  }

  lemma StepAnswers(w: World, a: Action, m: nat, o: Outcome)
    requires Invariant(w) && m < |w.managers| && o == Step(w, a)
    ensures Pending(w.managers[m]) + RequestOf(o.event, m) == AnswerOf(o.event, m) + Pending(o.world.managers[m])
  {
    hide Invariant, AdvanceManager, ShrinkOverflow;
    if a.Advance? && a.m < |w.managers| {
      if a.m == m {
        AdvanceAnswers(w, m, o);
      } else {
        AdvanceAnswersOthers(w, a.m, o, m);
      }
    }
  }

  /** Main theorem, content: after any schedule, every manager reads back exactly the tokens whose
      append succeeded since its last release, whatever the other managers and shrinks did. */
  lemma {:induction false} RunRefines(w: World, schedule: seq<Action>)
    requires Sound(w)
    ensures Sound(Run(w, schedule).world) && |Run(w, schedule).world.managers| == |w.managers|
    ensures forall m :: 0 <= m < |w.managers| ==>
      View(Run(w, schedule).world, m) == Replay(Run(w, schedule).events, m, View(w, m))
    decreases |schedule|
  {
    hide Shape, Ledger, View;
    if schedule != [] {
      var step := Step(w, schedule[0]);
      StepRefines(w, schedule[0], step.world, step.event);
      RunRefines(step.world, schedule[1..]);
    }
  }

  /** Main theorem, answers: appends are answered once each and in the order they were asked. */
  lemma {:induction false} RunAnswers(w: World, schedule: seq<Action>, m: nat)
    requires Invariant(w) && m < |w.managers|
    ensures m < |Run(w, schedule).world.managers|
    ensures Pending(w.managers[m]) + Requests(Run(w, schedule).events, m)
         == Answers(Run(w, schedule).events, m) + Pending(Run(w, schedule).world.managers[m])
    decreases |schedule|
  {
    hide Shape, Ledger, Pending;
    if schedule != [] {
      var step := Step(w, schedule[0]);
      StepKeepsInvariant(w, schedule[0]);
      StepAnswers(w, schedule[0], m, step);
      RunAnswers(step.world, schedule[1..], m);
      var rest := Run(step.world, schedule[1..]);
      Rotate(Pending(w.managers[m]), RequestOf(step.event, m), Requests(rest.events, m),
             AnswerOf(step.event, m), Pending(step.world.managers[m]),
             Answers(rest.events, m), Pending(rest.world.managers[m]));
      assert ([step.event] + rest.events)[1..] == rest.events;
    }
  }

  lemma Rotate<T>(p: seq<T>, r: seq<T>, rs: seq<T>, a: seq<T>, q: seq<T>, more: seq<T>, last: seq<T>)
    requires p + r == a + q && q + rs == more + last
    ensures p + (r + rs) == (a + more) + last
  {
    calc {
      p + (r + rs);
      (p + r) + rs;
      a + (q + rs);
      (a + more) + last;
    }
  }

  // ----- Where every block is

  function FreshWorld(kvDim: nat, capacity: nat, maxOverflow: Option<nat>, managers: nat): World {
    World(FreshPool(kvDim, capacity, maxOverflow), seq(managers, _ => Manager([], 0, Idle)))
  }

  lemma {:induction false} CountDownIsSpan(n: nat)
    ensures multiset(CountDown(n)) == Span(0, n)
  {
    if n > 0 {
      CountDownIsSpan(n - 1);
      assert CountDown(n) == [n - 1] + CountDown(n - 1);
    }
  }

  lemma {:induction false} NothingHeld(managers: seq<Manager>)
    requires forall m :: 0 <= m < |managers| ==> Held(managers[m]) == []
    ensures HeldAll(managers) == multiset{}
  {
    if managers != [] {
      NothingHeld(managers[..|managers| - 1]);
    }
  }

  lemma FreshPoolHasShape(kvDim: nat, capacity: nat, maxOverflow: Option<nat>)
    requires Accepts(kvDim, capacity)
    ensures Shape(FreshPool(kvDim, capacity, maxOverflow))
  {
  }

  /** A newly built pool with any number of empty managers is sound and nobody can read anything. */
  lemma FreshWorldIsSound(kvDim: nat, capacity: nat, maxOverflow: Option<nat>, managers: nat)
    requires Accepts(kvDim, capacity)
    ensures Sound(FreshWorld(kvDim, capacity, maxOverflow, managers))
    ensures forall m :: 0 <= m < managers ==> View(FreshWorld(kvDim, capacity, maxOverflow, managers), m) == []
  {
    hide Shape;
    var w := FreshWorld(kvDim, capacity, maxOverflow, managers);
    FreshPoolHasShape(kvDim, capacity, maxOverflow);
    assert Ledger(w) by {
      hide CountDown;
      NothingHeld(w.managers);
      CountDownIsSpan(Slots(w.pool));
    }
    assert AllConsistent(w);
  }

  /** How often an id occurs over both free lists and everything held by managers. */
  ghost function Occurrences(w: World, id: BlockId): nat {
    multiset(w.pool.free)[id] + Tagged(w.pool.overflowFree)[id] + HeldAll(w.managers)[id]
  }

  /** Main theorem, ownership: after any schedule every existing id is in exactly one place and no
      other id is anywhere; the overflow slab never passes its cap. */
  lemma EveryIdInOnePlace(w: World, schedule: seq<Action>, id: BlockId)
    requires Sound(w)
    ensures var w' := Run(w, schedule).world;
      && Occurrences(w', id) == (if Materialised(w'.pool, id) then 1 else 0)
      && (w'.pool.maxOverflow.Some? ==> w'.pool.overflowCapacity <= w'.pool.maxOverflow.value)
  {
    hide View;
    RunRefines(w, schedule);
    var w' := Run(w, schedule).world;
    AllIdsCount(w'.pool, id);
    assert Occurrences(w', id) == (multiset(w'.pool.free) + Tagged(w'.pool.overflowFree) + HeldAll(w'.managers))[id];
  }

  /** A shrink never takes a block away from anyone: all held ids still exist afterwards. */
  lemma ShrinkIsSafe(w: World, m: nat, id: BlockId)
    requires Invariant(w) && m < |w.managers| && id in Held(w.managers[m])
    ensures Materialised(ShrinkOverflow(w.pool), id)
  {
    hide Ledger, Shape;
    StepKeepsInvariant(w, Shrink);
    HeldExists(Step(w, Shrink).world, m, id);
  }

  // ----- Accounting

  ghost function HeldCount(managers: seq<Manager>): nat {
    if managers == [] then 0 else HeldCount(managers[..|managers| - 1]) + |Held(managers[|managers| - 1])|
  }

  ghost function BlocksOf(managers: seq<Manager>): nat {
    if managers == [] then 0 else BlocksOf(managers[..|managers| - 1]) + BlocksFor(managers[|managers| - 1].len)
  }

  lemma {:induction false} HeldCountIsSize(managers: seq<Manager>)
    ensures |HeldAll(managers)| == HeldCount(managers)
  {
    if managers != [] {
      HeldCountIsSize(managers[..|managers| - 1]);
    }
  }

  lemma {:induction false} IdleHoldsItsBlocks(p: Pool, managers: seq<Manager>)
    requires forall m :: 0 <= m < |managers| ==> managers[m].pc.Idle? && Consistent(p, managers[m])
    ensures HeldCount(managers) == BlocksOf(managers)
  {
    if managers != [] {
      IdleHoldsItsBlocks(p, managers[..|managers| - 1]);
    }
  }

  /** `utilization` counts exactly the blocks managers hold, plus the part of `capacity` that the
      `as u32` truncation keeps off the free list; with every manager idle that is the sum of
      `ceil(seq_len / 16)`. */
  lemma UsedIsHeld(w: World)
    requires Invariant(w)
    ensures UsedBlocks(w.pool) == w.pool.capacity - Slots(w.pool) + HeldCount(w.managers)
    ensures UsedBlocks(w.pool) == HeldCount(w.managers) <==> w.pool.capacity < U32_SPAN
    ensures (forall m :: 0 <= m < |w.managers| ==> w.managers[m].pc.Idle?) ==>
      UsedBlocks(w.pool) == w.pool.capacity - Slots(w.pool) + BlocksOf(w.managers)
  {
    hide Shape, Span, Tagged, HeldAll, HeldCount, BlocksOf;
    var p := w.pool;
    LedgerSizes(multiset(p.free), Tagged(p.overflowFree), HeldAll(w.managers), Span(0, Slots(p)),
                Span(OVERFLOW_BIT, p.overflowCapacity));
    HeldCountIsSize(w.managers);
    TaggedCount(p.overflowFree, 0);
    SpanSize(0, Slots(p));
    SpanSize(OVERFLOW_BIT, p.overflowCapacity);
    OverflowFreeFits(w);
    PrimaryFreeFits(w);
    if forall m :: 0 <= m < |w.managers| ==> w.managers[m].pc.Idle? {
      IdleHoldsItsBlocks(p, w.managers);
    }
  }

  lemma LedgerSizes(a: multiset<nat>, b: multiset<nat>, c: multiset<nat>, d: multiset<nat>, e: multiset<nat>)
    requires a + b + c == d + e
    ensures |a| + |b| + |c| == |d| + |e|
  {
    assert |a + b + c| == |d + e|;
  }
}
