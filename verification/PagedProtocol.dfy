/**
 Any number of request managers sharing one pool, run one critical section at a time. A manager is
 used by one task at a time (its methods take `&mut self`), so a schedule is a sequence of
 actions: a task starts an append or a release, the next critical section of some manager's
 operation runs, or someone shrinks the overflow slab. Between two critical sections of one
 manager anything may happen to the others.
 */
module PagedProtocol {
  import opened Machine
  import opened Sequences
  import opened Floats
  import opened PagedPool

  /** Where a manager's current operation stands; each state but `Idle` is about to take a lock. */
  datatype Pc =
    | Idle
    | PopPrimary(k: seq<F32>, v: seq<F32>)
    | PopOverflow(k: seq<F32>, v: seq<F32>)
    | GrowOverflow(k: seq<F32>, v: seq<F32>)
    | InFlight(id: BlockId, k: seq<F32>, v: seq<F32>)
    | StoreKey(k: seq<F32>, v: seq<F32>)
    | StoreValue(k: seq<F32>, v: seq<F32>)
    | Draining(rest: seq<BlockId>)

  datatype Manager = Manager(table: seq<BlockId>, len: nat, pc: Pc)

  datatype World = World(pool: Pool, managers: seq<Manager>)

  datatype Action =
    | BeginAppend(m: nat, k: seq<F32>, v: seq<F32>)
    | BeginRelease(m: nat)
    | Advance(m: nat)
    | Shrink

  /** What an action lets the outside see. */
  datatype Event =
    | Silent
    | Requested(m: nat, token: Token)
    | Appended(m: nat, token: Token)
    | Refused(m: nat, token: Token)
    | Panicked(m: nat, token: Token)
    | Cleared(m: nat)

  datatype Outcome = Outcome(world: World, event: Event)

  // ----- Steps

  function Put(w: World, p: Pool, m: nat, mgr: Manager): World
    requires m < |w.managers|
  {
    World(p, w.managers[m := mgr])
  }

  function Begin(w: World, m: nat, k: seq<F32>, v: seq<F32>): Outcome
    requires m < |w.managers|
  {
    var mgr := w.managers[m];
    var pc := if mgr.len % BLOCK_TOKENS == 0 then PopPrimary(k, v) else StoreKey(k, v);
    Outcome(Put(w, w.pool, m, mgr.(pc := pc)), Requested(m, Token(k, v)))
  }

  function StepPopPrimary(w: World, m: nat): Outcome
    requires m < |w.managers| && w.managers[m].pc.PopPrimary? && Shape(w.pool)
  {
    var mgr, p := w.managers[m], w.pool;
    var n := |p.free|;
    if n > 0 then
      Outcome(Put(w, p.(free := p.free[..n - 1]), m, mgr.(pc := InFlight(p.free[n - 1], mgr.pc.k, mgr.pc.v))), Silent)
    else
      Outcome(Put(w, p, m, mgr.(pc := PopOverflow(mgr.pc.k, mgr.pc.v))), Silent)
  }

  function StepPopOverflow(w: World, m: nat): Outcome
    requires m < |w.managers| && w.managers[m].pc.PopOverflow? && Shape(w.pool)
  {
    var mgr, p := w.managers[m], w.pool;
    var n := |p.overflowFree|;
    if n > 0 then
      Outcome(Put(w, p.(overflowFree := p.overflowFree[..n - 1]), m,
                  mgr.(pc := InFlight(Tag(p.overflowFree[n - 1]), mgr.pc.k, mgr.pc.v))), Silent)
    else
      Outcome(Put(w, p, m, mgr.(pc := GrowOverflow(mgr.pc.k, mgr.pc.v))), Silent)
  }

  function StepGrow(w: World, m: nat): Outcome
    requires m < |w.managers| && w.managers[m].pc.GrowOverflow? && Shape(w.pool)
  {
    var mgr, p := w.managers[m], w.pool;
    var token := Token(mgr.pc.k, mgr.pc.v);
    if AtOverflowCap(p) then
      Outcome(Put(w, p, m, mgr.(pc := Idle)), Refused(m, token))
    else if IdSpaceFull(p) then
      Outcome(Put(w, p, m, mgr.(pc := Idle)), Panicked(m, token))
    else
      Outcome(Put(w, Grow(p), m, mgr.(pc := InFlight(Tag(p.overflowCapacity), mgr.pc.k, mgr.pc.v))), Silent)
  }

  function StepAttach(w: World, m: nat): Outcome
    requires m < |w.managers| && w.managers[m].pc.InFlight?
  {
    var mgr := w.managers[m];
    Outcome(Put(w, w.pool, m, mgr.(table := mgr.table + [mgr.pc.id], pc := StoreKey(mgr.pc.k, mgr.pc.v))), Silent)
  }

  /** The block and offset the next token goes to: `block_table[seq_len / 16]`, `seq_len % 16`. */
  predicate Writable(w: World, m: nat) {
    && m < |w.managers|
    && Shape(w.pool)
    && w.managers[m].len / BLOCK_TOKENS < |w.managers[m].table|
    && Materialised(w.pool, w.managers[m].table[w.managers[m].len / BLOCK_TOKENS])
  }

  function StepStoreKey(w: World, m: nat): Outcome
    requires Writable(w, m) && w.managers[m].pc.StoreKey? && |w.managers[m].pc.k| == w.pool.kvDim
  {
    var mgr := w.managers[m];
    var p := WriteKey(w.pool, mgr.table[mgr.len / BLOCK_TOKENS], mgr.len % BLOCK_TOKENS, mgr.pc.k);
    Outcome(Put(w, p, m, mgr.(pc := StoreValue(mgr.pc.k, mgr.pc.v))), Silent)
  }

  function StepStoreValue(w: World, m: nat): Outcome
    requires Writable(w, m) && w.managers[m].pc.StoreValue? && |w.managers[m].pc.v| == w.pool.kvDim
  {
    var mgr := w.managers[m];
    var p := WriteValue(w.pool, mgr.table[mgr.len / BLOCK_TOKENS], mgr.len % BLOCK_TOKENS, mgr.pc.v);
    Outcome(Put(w, p, m, mgr.(len := mgr.len + 1, pc := Idle)), Appended(m, Token(mgr.pc.k, mgr.pc.v)))
  }

  function StepDrain(w: World, m: nat): Outcome
    requires m < |w.managers| && w.managers[m].pc.Draining?
  {
    var mgr := w.managers[m];
    if mgr.pc.rest == [] then
      Outcome(Put(w, w.pool, m, mgr.(len := 0, pc := Idle)), Silent)
    else
      Outcome(Put(w, ReleaseOne(w.pool, mgr.pc.rest[0]), m, mgr.(pc := Draining(mgr.pc.rest[1..]))), Silent)
  }

  // ----- Invariant

  /** The ids a manager is responsible for, wherever its operation stands. */
  function Held(mgr: Manager): seq<BlockId> {
    mgr.table + (if mgr.pc.InFlight? then [mgr.pc.id] else if mgr.pc.Draining? then mgr.pc.rest else [])
  }

  ghost function HeldAll(managers: seq<Manager>): multiset<nat> {
    if managers == [] then multiset{}
    else HeldAll(managers[..|managers| - 1]) + multiset(Held(managers[|managers| - 1]))
  }

  ghost function Tagged(indices: seq<nat>): multiset<nat> {
    if indices == [] then multiset{}
    else Tagged(indices[..|indices| - 1]) + multiset{indices[|indices| - 1] + OVERFLOW_BIT}
  }

  /** `base, base + 1, …, base + n - 1`, once each. */
  ghost function Span(base: nat, n: nat): multiset<nat> {
    if n == 0 then multiset{} else Span(base, n - 1) + multiset{base + n - 1}
  }

  /** Every id that exists, once. */
  ghost function AllIds(p: Pool): multiset<nat> {
    Span(0, Slots(p)) + Span(OVERFLOW_BIT, p.overflowCapacity)
  }

  /** Free primary ids, free overflow ids and held ids together are every id, once. */
  ghost predicate Ledger(w: World) {
    multiset(w.pool.free) + Tagged(w.pool.overflowFree) + HeldAll(w.managers) == AllIds(w.pool)
  }

  function BlocksFor(len: nat): nat { (len + BLOCK_TOKENS - 1) / BLOCK_TOKENS }

  predicate TokenFits(p: Pool, k: seq<F32>, v: seq<F32>) { |k| == |v| == p.kvDim }

  ghost predicate Consistent(p: Pool, mgr: Manager) {
    match mgr.pc
    case Idle => |mgr.table| == BlocksFor(mgr.len)
    case PopPrimary(k, v) => TokenFits(p, k, v) && mgr.len == BLOCK_TOKENS * |mgr.table|
    case PopOverflow(k, v) => TokenFits(p, k, v) && mgr.len == BLOCK_TOKENS * |mgr.table|
    case GrowOverflow(k, v) => TokenFits(p, k, v) && mgr.len == BLOCK_TOKENS * |mgr.table|
    case InFlight(_, k, v) => TokenFits(p, k, v) && mgr.len == BLOCK_TOKENS * |mgr.table|
    case StoreKey(k, v) => TokenFits(p, k, v) && |mgr.table| == mgr.len / BLOCK_TOKENS + 1
    case StoreValue(k, v) =>
      && TokenFits(p, k, v) && |mgr.table| == mgr.len / BLOCK_TOKENS + 1
    case Draining(_) => mgr.table == []
  }

  ghost predicate AllConsistent(w: World) {
    forall m :: 0 <= m < |w.managers| ==> Consistent(w.pool, w.managers[m])
  }

  ghost predicate Invariant(w: World) {
    Shape(w.pool) && Ledger(w) && AllConsistent(w)
  }

  // ----- Multiset bookkeeping

  lemma {:induction false} SpanCount(base: nat, n: nat, x: nat)
    ensures Span(base, n)[x] == if base <= x < base + n then 1 else 0
  {
    if n > 0 {
      SpanCount(base, n - 1, x);
    }
  }

  lemma {:induction false} SpanSize(base: nat, n: nat)
    ensures |Span(base, n)| == n
  {
    if n > 0 {
      SpanSize(base, n - 1);
    }
  }

  lemma AllIdsCount(p: Pool, x: nat)
    requires Shape(p)
    ensures AllIds(p)[x] == if x < U32_SPAN && Materialised(p, x) then 1 else 0
  {
    SpanCount(0, Slots(p), x);
    SpanCount(OVERFLOW_BIT, p.overflowCapacity, x);
  }

  lemma {:induction false} TaggedCount(indices: seq<nat>, x: nat)
    ensures |Tagged(indices)| == |indices|
    ensures x in Tagged(indices) ==> x >= OVERFLOW_BIT && x - OVERFLOW_BIT in indices
  {
    if indices != [] {
      TaggedCount(indices[..|indices| - 1], x);
    }
  }

  lemma AddToBothSides(a: multiset<nat>, b: multiset<nat>, c: multiset<nat>, d: multiset<nat>, e: multiset<nat>)
    requires a + c == b + d
    ensures (a + e) + c == (b + e) + d
  {
    assert (a + e) + c == (a + c) + e;
    assert (b + e) + d == (b + d) + e;
  }

  /** Replacing one manager exchanges what it holds and nothing else. */
  lemma {:induction false} HeldAfterUpdate(managers: seq<Manager>, m: nat, mgr: Manager)
    requires m < |managers|
    ensures HeldAll(managers[m := mgr]) + multiset(Held(managers[m])) == HeldAll(managers) + multiset(Held(mgr))
  {
    var n := |managers| - 1;
    var updated := managers[m := mgr];
    var before, after := multiset(Held(managers[m])), multiset(Held(mgr));
    if m == n {
      assert updated[..n] == managers[..n];
    } else {
      assert updated[..n] == managers[..n][m := mgr];
      HeldAfterUpdate(managers[..n], m, mgr);
      AddToBothSides(HeldAll(updated[..n]), HeldAll(managers[..n]), before, after, multiset(Held(managers[n])));
    }
  }

  lemma {:induction false} HeldIsIncluded(managers: seq<Manager>, m: nat)
    requires m < |managers|
    ensures multiset(Held(managers[m])) <= HeldAll(managers)
  {
    if m < |managers| - 1 {
      HeldIsIncluded(managers[..|managers| - 1], m);
    }
  }

  lemma {:induction false} TwoHeldAreIncluded(managers: seq<Manager>, a: nat, b: nat)
    requires a < b < |managers|
    ensures multiset(Held(managers[a])) + multiset(Held(managers[b])) <= HeldAll(managers)
  {
    if b < |managers| - 1 {
      TwoHeldAreIncluded(managers[..|managers| - 1], a, b);
    } else {
      HeldIsIncluded(managers[..|managers| - 1], a);
    }
  }

  // ----- What the ledger says about single ids

  /** A held id exists. */
  lemma HeldExists(w: World, m: nat, id: BlockId)
    requires Shape(w.pool) && Ledger(w) && m < |w.managers| && id in Held(w.managers[m])
    ensures Materialised(w.pool, id)
  {
    HeldIsIncluded(w.managers, m);
    assert id in multiset(Held(w.managers[m]));
    AllIdsCount(w.pool, id);
  }

  /** A held id is held once, by one manager. */
  lemma HeldOnce(w: World, a: nat, i: nat, b: nat, j: nat)
    requires Shape(w.pool) && Ledger(w) && a < |w.managers| && b < |w.managers|
    requires i < |Held(w.managers[a])| && j < |Held(w.managers[b])|
    requires Held(w.managers[a])[i] == Held(w.managers[b])[j]
    ensures a == b && i == j
  {
    var ha, hb := Held(w.managers[a]), Held(w.managers[b]);
    var id := ha[i];
    AllIdsCount(w.pool, id);
    if a != b {
      assert multiset(ha)[id] >= 1 && multiset(hb)[id] >= 1;
      TwoHeldAreIncluded(w.managers, if a < b then a else b, if a < b then b else a);
    } else if i != j {
      HeldIsIncluded(w.managers, a);
      OccursTwice(ha, if i < j then i else j, if i < j then j else i);
    }
  }

  // ----- The transition function

  ghost function Step(w: World, a: Action): (o: Outcome)
    requires Invariant(w)
    ensures |o.world.managers| == |w.managers|
  {
    match a
    case BeginAppend(m, k, v) =>
      if m < |w.managers| && w.managers[m].pc.Idle? && TokenFits(w.pool, k, v) then Begin(w, m, k, v)
      else Outcome(w, Silent)
    case BeginRelease(m) =>
      if m < |w.managers| && w.managers[m].pc.Idle? then
        Outcome(Put(w, w.pool, m, w.managers[m].(table := [], pc := Draining(w.managers[m].table))), Cleared(m))
      else Outcome(w, Silent)
    case Advance(m) =>
      if m < |w.managers| then AdvanceManager(w, m) else Outcome(w, Silent)
    case Shrink =>
      Outcome(World(ShrinkOverflow(w.pool), w.managers), Silent)
  }

  ghost function AdvanceManager(w: World, m: nat): (o: Outcome)
    requires Invariant(w) && m < |w.managers|
    ensures |o.world.managers| == |w.managers|
  {
    match w.managers[m].pc
    case Idle => Outcome(w, Silent)
    case PopPrimary(_, _) => StepPopPrimary(w, m)
    case PopOverflow(_, _) => StepPopOverflow(w, m)
    case GrowOverflow(_, _) => StepGrow(w, m)
    case InFlight(_, _, _) => StepAttach(w, m)
    case StoreKey(_, _) => TailIsWritable(w, m); StepStoreKey(w, m)
    case StoreValue(_, _) => TailIsWritable(w, m); StepStoreValue(w, m)
    case Draining(_) => StepDrain(w, m)
  }

  lemma TailIsWritable(w: World, m: nat)
    requires Invariant(w) && m < |w.managers|
    requires w.managers[m].pc.StoreKey? || w.managers[m].pc.StoreValue?
    ensures Writable(w, m)
  {
    HeldExists(w, m, w.managers[m].table[w.managers[m].len / BLOCK_TOKENS]);
  }

  // ----- The invariant is inductive

  lemma HeldGains(managers: seq<Manager>, m: nat, mgr: Manager, id: nat)
    requires m < |managers| && multiset(Held(mgr)) == multiset(Held(managers[m])) + multiset{id}
    ensures HeldAll(managers[m := mgr]) == HeldAll(managers) + multiset{id}
  {
    HeldAfterUpdate(managers, m, mgr);
    Cancel(HeldAll(managers[m := mgr]), HeldAll(managers) + multiset{id}, multiset(Held(managers[m])));
  }

  lemma HeldLoses(managers: seq<Manager>, m: nat, mgr: Manager, id: nat)
    requires m < |managers| && multiset(Held(managers[m])) == multiset(Held(mgr)) + multiset{id}
    ensures HeldAll(managers) == HeldAll(managers[m := mgr]) + multiset{id}
  {
    HeldAfterUpdate(managers, m, mgr);
    Cancel(HeldAll(managers), HeldAll(managers[m := mgr]) + multiset{id}, multiset(Held(mgr)));
  }

  lemma HeldKept(managers: seq<Manager>, m: nat, mgr: Manager)
    requires m < |managers| && Held(managers[m]) == Held(mgr)
    ensures HeldAll(managers[m := mgr]) == HeldAll(managers)
  {
    HeldAfterUpdate(managers, m, mgr);
    Cancel(HeldAll(managers[m := mgr]), HeldAll(managers), multiset(Held(mgr)));
  }

  lemma ConsistentAfterPut(w: World, p: Pool, m: nat, mgr: Manager)
    requires AllConsistent(w) && m < |w.managers| && p.kvDim == w.pool.kvDim && Consistent(p, mgr)
    ensures AllConsistent(Put(w, p, m, mgr))
  {
  }

  /** Same lists, same held ids: the ledger carries over. */
  lemma LedgerUnmoved(w: World, p: Pool, m: nat, mgr: Manager)
    requires Ledger(w) && m < |w.managers| && Held(mgr) == Held(w.managers[m])
    requires p.free == w.pool.free && p.overflowFree == w.pool.overflowFree
    requires p.capacity == w.pool.capacity && p.overflowCapacity == w.pool.overflowCapacity
    ensures Ledger(Put(w, p, m, mgr))
  {
    hide Span, Tagged, HeldAll;
    HeldKept(w.managers, m, mgr);
  }

  /** One free id `x` moves to a manager. */
  lemma LedgerTaken(w: World, p: Pool, m: nat, mgr: Manager, x: nat)
    requires Ledger(w) && m < |w.managers| && Held(mgr) == Held(w.managers[m]) + [x]
    requires multiset(w.pool.free) + Tagged(w.pool.overflowFree) == multiset(p.free) + Tagged(p.overflowFree) + multiset{x}
    requires AllIds(p) == AllIds(w.pool)
    ensures Ledger(Put(w, p, m, mgr))
  {
    hide Span, Tagged, HeldAll;
    HeldGains(w.managers, m, mgr, x);
    var rest, held := multiset(p.free) + Tagged(p.overflowFree), HeldAll(w.managers);
    assert rest + (held + multiset{x}) == (rest + multiset{x}) + held;
  }

  lemma PopCount(free: seq<nat>, overflow: seq<nat>)
    requires free != []
    ensures multiset(free) + Tagged(overflow)
         == multiset(free[..|free| - 1]) + Tagged(overflow) + multiset{free[|free| - 1]}
  {
    assert free == free[..|free| - 1] + [free[|free| - 1]];
  }

  lemma PopTaggedCount(free: seq<nat>, overflow: seq<nat>)
    requires overflow != []
    ensures var last: nat := overflow[|overflow| - 1] + OVERFLOW_BIT;
      multiset(free) + Tagged(overflow) == multiset(free) + Tagged(overflow[..|overflow| - 1]) + multiset{last}
  {
  }

  lemma PopKeepsShape(p: Pool)
    requires Shape(p)
    ensures p.free != [] ==> Shape(p.(free := p.free[..|p.free| - 1]))
    ensures p.overflowFree != [] ==> Shape(p.(overflowFree := p.overflowFree[..|p.overflowFree| - 1]))
  {
  }

  lemma PopPrimaryLedger(w: World, m: nat)
    requires Shape(w.pool) && Ledger(w) && m < |w.managers| && w.managers[m].pc.PopPrimary?
    ensures Ledger(StepPopPrimary(w, m).world)
  {
    hide Shape, Span, Tagged, HeldAll;
    var free, w' := w.pool.free, StepPopPrimary(w, m).world;
    if free != [] {
      PopCount(free, w.pool.overflowFree);
      assert Held(w'.managers[m]) == Held(w.managers[m]) + [free[|free| - 1]];
      LedgerTaken(w, w'.pool, m, w'.managers[m], free[|free| - 1]);
    } else {
      LedgerUnmoved(w, w'.pool, m, w'.managers[m]);
    }
  }

  lemma PopPrimaryKeeps(w: World, m: nat)
    requires Invariant(w) && m < |w.managers| && w.managers[m].pc.PopPrimary?
    ensures Invariant(StepPopPrimary(w, m).world)
  {
    hide Shape, Ledger;
    var w' := StepPopPrimary(w, m).world;
    PopKeepsShape(w.pool);
    ConsistentAfterPut(w, w'.pool, m, w'.managers[m]);
    PopPrimaryLedger(w, m);
  }

  lemma PopOverflowLedger(w: World, m: nat)
    requires Shape(w.pool) && Ledger(w) && m < |w.managers| && w.managers[m].pc.PopOverflow?
    ensures Ledger(StepPopOverflow(w, m).world)
  {
    hide Shape, Span, Tagged, HeldAll;
    var free, w' := w.pool.overflowFree, StepPopOverflow(w, m).world;
    if free != [] {
      PopTaggedCount(w.pool.free, free);
      assert Held(w'.managers[m]) == Held(w.managers[m]) + [free[|free| - 1] + OVERFLOW_BIT];
      LedgerTaken(w, w'.pool, m, w'.managers[m], free[|free| - 1] + OVERFLOW_BIT);
    } else {
      LedgerUnmoved(w, w'.pool, m, w'.managers[m]);
    }
  }

  lemma PopOverflowKeeps(w: World, m: nat)
    requires Invariant(w) && m < |w.managers| && w.managers[m].pc.PopOverflow?
    ensures Invariant(StepPopOverflow(w, m).world)
  {
    hide Shape, Ledger;
    var w' := StepPopOverflow(w, m).world;
    PopKeepsShape(w.pool);
    ConsistentAfterPut(w, w'.pool, m, w'.managers[m]);
    PopOverflowLedger(w, m);
  }

  lemma GrowKeepsShape(p: Pool)
    requires Shape(p) && !AtOverflowCap(p) && !IdSpaceFull(p)
    ensures Shape(Grow(p))
  {
    assert BlockFloats(p.kvDim) * (p.overflowCapacity + 1) == BlockFloats(p.kvDim) * p.overflowCapacity + BlockFloats(p.kvDim);
  }

  lemma GrowAddsId(p: Pool)
    requires p.overflowCapacity < OVERFLOW_BIT
    ensures AllIds(Grow(p)) == AllIds(p) + multiset{Tag(p.overflowCapacity)}
  {
    var a, b := Span(0, Slots(p)), Span(OVERFLOW_BIT, p.overflowCapacity);
    assert a + (b + multiset{Tag(p.overflowCapacity)}) == (a + b) + multiset{Tag(p.overflowCapacity)};
  }

  lemma GrowLedger(w: World, m: nat)
    requires Shape(w.pool) && Ledger(w) && m < |w.managers| && w.managers[m].pc.GrowOverflow?
    ensures Ledger(StepGrow(w, m).world)
  {
    hide Shape, Span, Tagged, HeldAll;
    var p, w' := w.pool, StepGrow(w, m).world;
    if AtOverflowCap(p) || IdSpaceFull(p) {
      LedgerUnmoved(w, p, m, w'.managers[m]);
    } else {
      GrowAddsId(p);
      assert Held(w'.managers[m]) == Held(w.managers[m]) + [Tag(p.overflowCapacity)];
      LedgerGrown(w, w'.pool, m, w'.managers[m], Tag(p.overflowCapacity));
    }
  }

  lemma GrowKeeps(w: World, m: nat)
    requires Invariant(w) && m < |w.managers| && w.managers[m].pc.GrowOverflow?
    ensures Invariant(StepGrow(w, m).world)
  {
    hide Shape, Ledger;
    var w' := StepGrow(w, m).world;
    ConsistentAfterPut(w, w'.pool, m, w'.managers[m]);
    GrowLedger(w, m);
    if !AtOverflowCap(w.pool) && !IdSpaceFull(w.pool) {
      GrowKeepsShape(w.pool);
    }
  }

  /** A new id `x` is created and goes to a manager. */
  lemma LedgerGrown(w: World, p: Pool, m: nat, mgr: Manager, x: nat)
    requires Ledger(w) && m < |w.managers| && Held(mgr) == Held(w.managers[m]) + [x]
    requires p.free == w.pool.free && p.overflowFree == w.pool.overflowFree && AllIds(p) == AllIds(w.pool) + multiset{x}
    ensures Ledger(Put(w, p, m, mgr))
  {
    hide Span, Tagged, HeldAll;
    HeldGains(w.managers, m, mgr, x);
    var free, held := multiset(p.free) + Tagged(p.overflowFree), HeldAll(w.managers);
    assert free + (held + multiset{x}) == (free + held) + multiset{x};
  }

  lemma AttachKeeps(w: World, m: nat)
    requires Invariant(w) && m < |w.managers| && w.managers[m].pc.InFlight?
    ensures Invariant(StepAttach(w, m).world)
  {
    var w' := StepAttach(w, m).world;
    LedgerUnmoved(w, w.pool, m, w'.managers[m]);
    ConsistentAfterPut(w, w'.pool, m, w'.managers[m]);
  }

  lemma StoreKeyKeeps(w: World, m: nat)
    requires Invariant(w) && Writable(w, m) && w.managers[m].pc.StoreKey? && |w.managers[m].pc.k| == w.pool.kvDim
    ensures Invariant(StepStoreKey(w, m).world)
  {
    var w' := StepStoreKey(w, m).world;
    LedgerUnmoved(w, w'.pool, m, w'.managers[m]);
    ConsistentAfterPut(w, w'.pool, m, w'.managers[m]);
  }

  lemma StoreValueKeeps(w: World, m: nat)
    requires Invariant(w) && Writable(w, m) && w.managers[m].pc.StoreValue? && |w.managers[m].pc.v| == w.pool.kvDim
    ensures Invariant(StepStoreValue(w, m).world)
  {
    var w' := StepStoreValue(w, m).world;
    LedgerUnmoved(w, w'.pool, m, w'.managers[m]);
    ConsistentAfterPut(w, w'.pool, m, w'.managers[m]);
  }

  lemma ReleaseKeepsShape(p: Pool, id: BlockId)
    requires Shape(p) && Materialised(p, id)
    ensures Shape(ReleaseOne(p, id)) && AllIds(ReleaseOne(p, id)) == AllIds(p)
  {
  }

  lemma ReleaseCount(p: Pool, id: BlockId)
    ensures multiset(ReleaseOne(p, id).free) + Tagged(ReleaseOne(p, id).overflowFree)
         == multiset(p.free) + Tagged(p.overflowFree) + multiset{id}
  {
    var q := ReleaseOne(p, id);
    if IsOverflow(id) {
      assert q.overflowFree[..|p.overflowFree|] == p.overflowFree;
      PopTaggedCount(p.free, q.overflowFree);
    } else {
      assert q.free[..|p.free|] == p.free;
      PopCount(q.free, p.overflowFree);
    }
  }

  lemma DrainLedger(w: World, m: nat)
    requires Shape(w.pool) && Ledger(w) && m < |w.managers| && w.managers[m].pc.Draining? && w.managers[m].table == []
    ensures Ledger(StepDrain(w, m).world)
  {
    hide Shape, Span, Tagged, HeldAll;
    var mgr, w' := w.managers[m], StepDrain(w, m).world;
    if mgr.pc.rest == [] {
      LedgerUnmoved(w, w'.pool, m, w'.managers[m]);
    } else {
      var id := mgr.pc.rest[0];
      assert Held(mgr) == [id] + Held(w'.managers[m]);
      ReleaseCount(w.pool, id);
      LedgerReturned(w, w'.pool, m, w'.managers[m], id);
    }
  }

  lemma DrainKeeps(w: World, m: nat)
    requires Invariant(w) && m < |w.managers| && w.managers[m].pc.Draining?
    ensures Invariant(StepDrain(w, m).world)
  {
    hide Shape, Ledger;
    var mgr, w' := w.managers[m], StepDrain(w, m).world;
    ConsistentAfterPut(w, w'.pool, m, w'.managers[m]);
    DrainLedger(w, m);
    if mgr.pc.rest != [] {
      HeldExists(w, m, mgr.pc.rest[0]);
      ReleaseKeepsShape(w.pool, mgr.pc.rest[0]);
    }
  }

  /** One held id `x` goes back to a free list. */
  lemma LedgerReturned(w: World, p: Pool, m: nat, mgr: Manager, x: nat)
    requires Ledger(w) && m < |w.managers| && multiset(Held(w.managers[m])) == multiset(Held(mgr)) + multiset{x}
    requires multiset(p.free) + Tagged(p.overflowFree) == multiset(w.pool.free) + Tagged(w.pool.overflowFree) + multiset{x}
    requires AllIds(p) == AllIds(w.pool)
    ensures Ledger(Put(w, p, m, mgr))
  {
    hide Span, Tagged, HeldAll;
    HeldLoses(w.managers, m, mgr, x);
    var free, held := multiset(w.pool.free) + Tagged(w.pool.overflowFree), HeldAll(w.managers[m := mgr]);
    assert free + (held + multiset{x}) == (free + multiset{x}) + held;
  }

  /** The overflow free list names existing overflow ids, each at most once. */
  lemma OverflowFreeFits(w: World)
    requires Shape(w.pool) && Ledger(w)
    ensures Tagged(w.pool.overflowFree) <= Span(OVERFLOW_BIT, w.pool.overflowCapacity)
    ensures |w.pool.overflowFree| <= w.pool.overflowCapacity
  {
    hide Shape, Span, Tagged, HeldAll;
    var tagged, span := Tagged(w.pool.overflowFree), Span(OVERFLOW_BIT, w.pool.overflowCapacity);
    forall x: nat
      ensures tagged[x] <= span[x]
    {
      TaggedCount(w.pool.overflowFree, x);
      AllIdsCount(w.pool, x);
      SpanCount(OVERFLOW_BIT, w.pool.overflowCapacity, x);
      SpanCount(0, Slots(w.pool), x);
      assert tagged[x] <= AllIds(w.pool)[x];
    }
    assert tagged <= span;
    TaggedCount(w.pool.overflowFree, 0);
    SpanSize(OVERFLOW_BIT, w.pool.overflowCapacity);
    assert span == tagged + (span - tagged);
  }

  lemma PrimaryFreeFits(w: World)
    requires Shape(w.pool) && Ledger(w)
    ensures |w.pool.free| <= Slots(w.pool)
  {
    hide Span, Tagged, HeldAll;
    var free, span := multiset(w.pool.free), Span(0, Slots(w.pool));
    forall x: nat
      ensures free[x] <= span[x]
    {
      SpanCount(0, Slots(w.pool), x);
      SpanCount(OVERFLOW_BIT, w.pool.overflowCapacity, x);
      assert free[x] <= AllIds(w.pool)[x];
      if free[x] > 0 {
        assert x in w.pool.free;
        assert x < Slots(w.pool) < OVERFLOW_BIT;
      }
    }
    assert free <= span;
    SpanSize(0, Slots(w.pool));
    assert span == free + (span - free);
  }

  /** When the shrink goes ahead, every overflow id is on the free list. */
  lemma ShrinkFindsAllFree(w: World)
    requires Shape(w.pool) && Ledger(w) && CanShrink(w.pool)
    ensures Tagged(w.pool.overflowFree) == Span(OVERFLOW_BIT, w.pool.overflowCapacity)
  {
    var tagged, span := Tagged(w.pool.overflowFree), Span(OVERFLOW_BIT, w.pool.overflowCapacity);
    OverflowFreeFits(w);
    TaggedCount(w.pool.overflowFree, 0);
    SpanSize(OVERFLOW_BIT, w.pool.overflowCapacity);
    assert span == tagged + (span - tagged);
    assert |span - tagged| == 0;
  }

  lemma ShrinkKeeps(w: World)
    requires Invariant(w)
    ensures Invariant(World(ShrinkOverflow(w.pool), w.managers))
  {
    hide Ledger, Shape;
    LedgerAfterShrink(w);
    ShapeAfterShrink(w.pool);
  }

  lemma ShapeAfterShrink(p: Pool)
    requires Shape(p)
    ensures Shape(ShrinkOverflow(p))
  {
  }

  lemma LedgerAfterShrink(w: World)
    requires Shape(w.pool) && Ledger(w)
    ensures Ledger(World(ShrinkOverflow(w.pool), w.managers))
  {
    hide Shape;
    if CanShrink(w.pool) {
      var p := w.pool;
      ShrinkFindsAllFree(w);
      LedgerShrunk(multiset(p.free), HeldAll(w.managers), Span(0, Slots(p)), Tagged(p.overflowFree));
    }
  }

  lemma LedgerShrunk(free: multiset<nat>, held: multiset<nat>, primary: multiset<nat>, overflow: multiset<nat>)
    requires free + overflow + held == primary + overflow
    ensures free + multiset{} + held == primary + multiset{}
  {
    assert free + overflow + held == (free + held) + overflow;
    Cancel(free + held, primary, overflow);
  }

  lemma BeginKeeps(w: World, m: nat, mgr: Manager)
    requires Invariant(w) && m < |w.managers| && Held(mgr) == Held(w.managers[m]) && Consistent(w.pool, mgr)
    ensures Invariant(Put(w, w.pool, m, mgr))
  {
    LedgerUnmoved(w, w.pool, m, mgr);
    ConsistentAfterPut(w, w.pool, m, mgr);
  }

  lemma AdvanceKeeps(w: World, m: nat)
    requires Invariant(w) && m < |w.managers|
    ensures Invariant(AdvanceManager(w, m).world)
  {
    hide Shape, Ledger;
    match w.managers[m].pc
    case Idle =>
    case PopPrimary(_, _) => PopPrimaryKeeps(w, m);
    case PopOverflow(_, _) => PopOverflowKeeps(w, m);
    case GrowOverflow(_, _) => GrowKeeps(w, m);
    case InFlight(_, _, _) => AttachKeeps(w, m);
    case StoreKey(_, _) => TailIsWritable(w, m); StoreKeyKeeps(w, m);
    case StoreValue(_, _) => TailIsWritable(w, m); StoreValueKeeps(w, m);
    case Draining(_) => DrainKeeps(w, m);
  }

  /** Every step of every schedule keeps the invariant. */
  lemma StepKeepsInvariant(w: World, a: Action)
    requires Invariant(w)
    ensures Invariant(Step(w, a).world)
  {
    hide Shape, Ledger;
    match a
    case BeginAppend(m, k, v) =>
      if m < |w.managers| && w.managers[m].pc.Idle? && TokenFits(w.pool, k, v) {
        BeginKeeps(w, m, Step(w, a).world.managers[m]);
      }
    case BeginRelease(m) =>
      if m < |w.managers| && w.managers[m].pc.Idle? {
        BeginKeeps(w, m, Step(w, a).world.managers[m]);
      }
    case Advance(m) =>
      if m < |w.managers| {
        AdvanceKeeps(w, m);
      }
    case Shrink => ShrinkKeeps(w);
  }
}
