/**
 What concurrency costs. Between finding both free lists empty and entering the growth path another
 task may return a block. Ownership and contents are unaffected; the sequential characterisations of a
 refusal and of the overflow capacity hold in every schedule exactly under the conditions proved here.
 */
module PagedRaces {
  import opened Arithmetic
  import opened Machine
  import opened Options
  import opened PagedPool
  import opened PagedProtocol
  import opened PagedRefinement

  /** A world under observation: `peak` is the most overflow blocks in use at once since the last shrink that
      found none in use. */
  datatype Watch = Watch(world: World, peak: nat)

  ghost function Observe(s: Watch, a: Action): (s': Watch)
    requires Invariant(s.world)
    ensures Invariant(s'.world) && s'.world == Step(s.world, a).world
  {
    StepKeepsInvariant(s.world, a);
    var w := Step(s.world, a).world;
    Watch(w, if a.Shrink? && OverflowInUse(s.world.pool) == 0 then 0 else Max(s.peak, OverflowInUse(w.pool)))
  }

  ghost function Watched(s: Watch, schedule: seq<Action>): (s': Watch)
    requires Invariant(s.world)
    ensures Invariant(s'.world)
    decreases |schedule|
  {
    if schedule == [] then s else Watched(Observe(s, schedule[0]), schedule[1..])
  }

  lemma {:induction false} WatchedIsRun(s: Watch, schedule: seq<Action>)
    requires Invariant(s.world)
    ensures Watched(s, schedule).world == Run(s.world, schedule).world
    decreases |schedule|
  {
    hide Invariant, Step;
    if schedule != [] {
      StepKeepsInvariant(s.world, schedule[0]);
      WatchedIsRun(Observe(s, schedule[0]), schedule[1..]);
    }
  }

  lemma {:induction false} WatchedConcat(s: Watch, a: seq<Action>, b: seq<Action>)
    requires Invariant(s.world)
    ensures Watched(s, a + b) == Watched(Watched(s, a), b)
    decreases |a|
  {
    hide Invariant, Observe;
    if a == [] {
      assert a + b == b;
    } else {
      assert (a + b)[1..] == a[1..] + b;
      WatchedConcat(Observe(s, a[0]), a[1..], b);
    }
  }

  lemma WatchedOne(s: Watch, a: Action)
    requires Invariant(s.world)
    ensures Watched(s, [a]) == Observe(s, a)
  {
    hide Invariant, Observe;
    assert [a][1..] == [];
    assert Watched(Observe(s, a), []) == Observe(s, a);
  }

  /** The sequential reading of a refusal: no primary block is free and the cap's worth of blocks is in use. */
  predicate AtLimit(p: Pool) {
    p.free == [] && p.maxOverflow.Some? && OverflowInUse(p) == p.maxOverflow.value
  }

  /** Every refusal of the schedule happens at the limit. */
  ghost predicate RefusesOnlyAtLimit(w: World, schedule: seq<Action>)
    requires Invariant(w)
    decreases |schedule|
  {
    schedule == []
    || (StepKeepsInvariant(w, schedule[0]);
        && (Step(w, schedule[0]).event.Refused? ==> AtLimit(w.pool))
        && RefusesOnlyAtLimit(Step(w, schedule[0]).world, schedule[1..]))
  }

  lemma {:induction false} RefusesLater(s: Watch, a: seq<Action>, b: seq<Action>)
    requires Invariant(s.world) && RefusesOnlyAtLimit(s.world, a + b)
    ensures RefusesOnlyAtLimit(Watched(s, a).world, b)
    decreases |a|
  {
    hide Invariant, Step, AtLimit;
    if a == [] {
      assert a + b == b;
    } else {
      assert (a + b)[1..] == a[1..] + b;
      RefusesLater(Observe(s, a[0]), a[1..], b);
    }
  }

  function Start(kvDim: nat, capacity: nat, cap: Option<nat>, managers: nat): Watch {
    Watch(FreshWorld(kvDim, capacity, cap, managers), 0)
  }

  // ----- When the sequential rules survive

  /** At most one manager: what it found empty stays empty until it gets there. */
  ghost predicate Lone(w: World) {
    && |w.managers| <= 1
    && (|w.managers| == 1 ==>
          && (w.managers[0].pc.PopOverflow? ==> w.pool.free == [])
          && (w.managers[0].pc.GrowOverflow? ==> w.pool.free == [] && w.pool.overflowFree == []))
  }

  lemma LoneStep(w: World, a: Action)
    requires Invariant(w) && Lone(w)
    ensures Lone(Step(w, a).world)
  {
    hide Shape, Ledger, AllConsistent, WriteKey, WriteValue;
    match a
    case Advance(m) =>
      if m < |w.managers| {
        LoneAdvance(w);
      }
    case _ =>
  }

  lemma LoneAdvance(w: World)
    requires Invariant(w) && Lone(w) && |w.managers| == 1
    ensures Lone(AdvanceManager(w, 0).world)
  {
    hide Shape, Ledger, AllConsistent, WriteKey, WriteValue;
  }

  /** Limits never change. */
  lemma LimitsStay(w: World, a: Action)
    requires Invariant(w)
    ensures var p, p' := w.pool, Step(w, a).world.pool;
      p'.maxOverflow == p.maxOverflow && p'.capacity == p.capacity && p'.kvDim == p.kvDim
  {
    hide Shape, Ledger, AllConsistent;
  }

  /** A refusal comes from the growth path, at the cap. */
  lemma RefusalSeesCap(w: World, a: Action)
    requires Invariant(w) && Step(w, a).event.Refused?
    ensures a.Advance? && a.m < |w.managers| && w.managers[a.m].pc.GrowOverflow?
    ensures w.pool.maxOverflow.Some? && w.pool.overflowCapacity == w.pool.maxOverflow.value <= OVERFLOW_BIT
  {
    hide Ledger, AllConsistent;
  }

  /** The conditions under which refusals follow the sequential rule. */
  predicate RefusalsAreSequential(managers: nat, cap: Option<nat>, capacity: nat) {
    managers <= 1 || cap.None? || cap.value > OVERFLOW_BIT || (cap.value == 0 && capacity % U32_SPAN == 0)
  }

  lemma SequentialRefusal(w: World, a: Action)
    requires Invariant(w) && Step(w, a).event.Refused?
    requires Lone(w) || w.pool.maxOverflow.None? || w.pool.maxOverflow.value > OVERFLOW_BIT
      || (w.pool.maxOverflow.value == 0 && Slots(w.pool) == 0)
    ensures AtLimit(w.pool)
  {
    hide Invariant, Step;
    RefusalSeesCap(w, a);
    FreeFits(w);
  }

  lemma {:induction false} RefusesAtLimit(w: World, schedule: seq<Action>)
    requires Invariant(w)
    requires Lone(w) || w.pool.maxOverflow.None? || w.pool.maxOverflow.value > OVERFLOW_BIT
      || (w.pool.maxOverflow.value == 0 && Slots(w.pool) == 0)
    ensures RefusesOnlyAtLimit(w, schedule)
    decreases |schedule|
  {
    hide Invariant, Step, Lone, AtLimit;
    if schedule != [] {
      var a := schedule[0];
      StepKeepsInvariant(w, a);
      LimitsStay(w, a);
      if Lone(w) {
        LoneStep(w, a);
      }
      if Step(w, a).event.Refused? {
        SequentialRefusal(w, a);
      }
      RefusesAtLimit(Step(w, a).world, schedule[1..]);
    }
  }

  /** What a step does to the overflow slab: nothing, one block of growth, or a shrink. */
  lemma CapacityMoves(w: World, a: Action)
    requires Invariant(w)
    ensures var p, p' := w.pool, Step(w, a).world.pool;
      || p'.overflowCapacity == p.overflowCapacity
      || (a.Shrink? && OverflowInUse(p) == 0 && p'.overflowCapacity == 0 && p'.overflowFree == [])
      || (a.Advance? && a.m < |w.managers| && w.managers[a.m].pc.GrowOverflow? && !AtOverflowCap(p)
          && p'.overflowCapacity == p.overflowCapacity + 1 && p'.overflowFree == p.overflowFree)
    ensures a.Shrink? && OverflowInUse(w.pool) == 0 ==> Step(w, a).world.pool.overflowCapacity == 0
  {
    hide Shape, Ledger, AllConsistent, WriteSlot;
  }

  lemma SteadyStep(s: Watch, a: Action)
    requires Invariant(s.world) && s.peak == s.world.pool.overflowCapacity
    requires Lone(s.world) || (s.world.pool.maxOverflow.Some? && s.world.pool.maxOverflow.value <= 1)
    ensures Observe(s, a).peak == Observe(s, a).world.pool.overflowCapacity
  {
    hide Invariant, Step;
    CapacityMoves(s.world, a);
    FreeFits(s.world);
    FreeFits(Observe(s, a).world);
    if Lone(s.world) && a.Advance? && a.m < |s.world.managers| {
      assert a.m == 0;
    }
  }

  lemma FreeFits(w: World)
    requires Invariant(w)
    ensures |w.pool.overflowFree| <= w.pool.overflowCapacity <= OVERFLOW_BIT && |w.pool.free| <= Slots(w.pool)
    ensures w.pool.maxOverflow.Some? ==> w.pool.overflowCapacity <= w.pool.maxOverflow.value
  {
    hide Ledger;
    OverflowFreeFits(w);
    PrimaryFreeFits(w);
  }

  lemma {:induction false} SteadyRun(s: Watch, schedule: seq<Action>)
    requires Invariant(s.world) && s.peak == s.world.pool.overflowCapacity
    requires Lone(s.world) || (s.world.pool.maxOverflow.Some? && s.world.pool.maxOverflow.value <= 1)
    ensures Watched(s, schedule).peak == Watched(s, schedule).world.pool.overflowCapacity
    decreases |schedule|
  {
    hide Invariant, Step, Lone, Observe;
    if schedule != [] {
      var a := schedule[0];
      SteadyStep(s, a);
      LimitsStay(s.world, a);
      if Lone(s.world) {
        LoneStep(s.world, a);
      }
      SteadyRun(Observe(s, a), schedule[1..]);
    }
  }

  // ----- How two managers break them

  const Fresh: Manager := Manager([], 0, Idle)

  /** Every manager from `from` on is as it was built. */
  ghost predicate Untouched(w: World, from: nat) {
    from <= |w.managers| && forall m :: from <= m < |w.managers| ==> w.managers[m] == Fresh
  }

  lemma {:induction false} HeldByFirst(managers: seq<Manager>)
    requires managers != [] && forall m :: 1 <= m < |managers| ==> Held(managers[m]) == []
    ensures HeldCount(managers) == |Held(managers[0])|
  {
    if |managers| > 1 {
      HeldByFirst(managers[..|managers| - 1]);
    } else {
      assert HeldCount(managers[..0]) == 0;
    }
  }

  /** If only manager 0 holds blocks, they are all that is not free. */
  lemma BlocksAddUp(w: World)
    requires Invariant(w) && w.managers != [] && forall m :: 1 <= m < |w.managers| ==> Held(w.managers[m]) == []
    ensures |w.pool.free| + |w.pool.overflowFree| + |Held(w.managers[0])| == Slots(w.pool) + w.pool.overflowCapacity
    ensures |w.pool.free| <= Slots(w.pool) && |w.pool.overflowFree| <= w.pool.overflowCapacity
  {
    hide Shape, Span, Tagged, HeldAll, HeldCount;
    var p := w.pool;
    LedgerSizes(multiset(p.free), Tagged(p.overflowFree), HeldAll(w.managers), Span(0, Slots(p)),
                Span(OVERFLOW_BIT, p.overflowCapacity));
    HeldCountIsSize(w.managers);
    HeldByFirst(w.managers);
    TaggedCount(p.overflowFree, 0);
    SpanSize(0, Slots(p));
    SpanSize(OVERFLOW_BIT, p.overflowCapacity);
    OverflowFreeFits(w);
    PrimaryFreeFits(w);
  }

  /** Manager 0 alone is on its way to hold `target` blocks: every primary block and then overflow blocks. */
  ghost predicate Filling(s: Watch, target: nat) {
    var w, p := s.world, s.world.pool;
    && Invariant(w) && |w.managers| >= 2 && Untouched(w, 1)
    && p.overflowFree == [] && (p.overflowCapacity > 0 ==> p.free == []) && s.peak == p.overflowCapacity
    && Slots(p) <= target <= Slots(p) + OVERFLOW_BIT && (p.maxOverflow.Some? ==> target <= Slots(p) + p.maxOverflow.value)
    && !w.managers[0].pc.Draining?
    && |w.managers[0].table| <= target
    && (Seeking(w.managers[0].pc) || w.managers[0].pc.InFlight? ==> |w.managers[0].table| < target)
    && (w.managers[0].pc.PopOverflow? || w.managers[0].pc.GrowOverflow? ==> p.free == [])
  }

  predicate Seeking(pc: Pc) { pc.PopPrimary? || pc.PopOverflow? || pc.GrowOverflow? }

  function Rank(pc: Pc): nat {
    match pc
    case Idle => 7
    case PopPrimary(_, _) => 6
    case PopOverflow(_, _) => 5
    case GrowOverflow(_, _) => 4
    case InFlight(_, _, _) => 3
    case StoreKey(_, _) => 2
    case StoreValue(_, _) => 1
    case Draining(_) => 0
  }

  /** How far manager 0 is from holding `target` blocks. */
  function ToGo(mgr: Manager, target: nat): nat {
    SaturatingSub(BLOCK_TOKENS * target, mgr.len) * 8 + Rank(mgr.pc)
  }

  function NextFill(w: World): Action
    requires w.managers != []
  {
    if w.managers[0].pc.Idle? then BeginAppend(0, Zeros(w.pool.kvDim), Zeros(w.pool.kvDim)) else Advance(0)
  }

  /** A manager about to grow the slab for less than `target` blocks is below the cap. */
  lemma GrowsFreely(s: Watch, target: nat)
    requires Filling(s, target) && s.world.managers[0].pc.GrowOverflow?
    ensures !AtOverflowCap(s.world.pool) && !IdSpaceFull(s.world.pool)
  {
    hide Shape, Ledger;
    BlocksAddUp(s.world);
  }

  lemma FillPool(s: Watch, target: nat)
    requires Filling(s, target) && !(s.world.managers[0].pc.Idle? && |s.world.managers[0].table| == target)
    ensures var w, w' := s.world, Step(s.world, NextFill(s.world)).world;
      && w'.pool.overflowFree == [] && (w'.pool.overflowCapacity > 0 ==> w'.pool.free == [])
      && Slots(w'.pool) == Slots(w.pool) && w'.pool.maxOverflow == w.pool.maxOverflow && w'.pool.kvDim == w.pool.kvDim
      && Untouched(w', 1) && w'.pool.overflowCapacity >= w.pool.overflowCapacity
  {
    if s.world.managers[0].pc.GrowOverflow? {
      GrowsFreely(s, target);
    }
    hide Shape, Ledger, AllConsistent, WriteKey, WriteValue;
  }

  lemma FillManager(s: Watch, target: nat)
    requires Filling(s, target) && !(s.world.managers[0].pc.Idle? && |s.world.managers[0].table| == target)
    ensures var w, w' := s.world, Step(s.world, NextFill(s.world)).world;
      var mgr, mgr' := w.managers[0], w'.managers[0];
      && !mgr'.pc.Draining? && |mgr'.table| <= target
      && (Seeking(mgr'.pc) || mgr'.pc.InFlight? ==> |mgr'.table| < target)
      && (mgr'.pc.PopOverflow? || mgr'.pc.GrowOverflow? ==> w'.pool.free == [])
      && ToGo(mgr', target) < ToGo(mgr, target)
  {
    if s.world.managers[0].pc.GrowOverflow? {
      GrowsFreely(s, target);
    }
    hide Shape, Ledger, WriteKey, WriteValue;
    var mgr := s.world.managers[0];
    assert Consistent(s.world.pool, mgr);
    assert mgr.pc.StoreValue? ==> mgr.len < BLOCK_TOKENS * target;
  }

  lemma FillStep(s: Watch, target: nat)
    requires Filling(s, target) && !(s.world.managers[0].pc.Idle? && |s.world.managers[0].table| == target)
    ensures var s' := Observe(s, NextFill(s.world));
      && Filling(s', target) && s'.world.pool.maxOverflow == s.world.pool.maxOverflow
      && Slots(s'.world.pool) == Slots(s.world.pool) && s'.world.pool.kvDim == s.world.pool.kvDim
      && |s'.world.managers| == |s.world.managers|
      && ToGo(s'.world.managers[0], target) < ToGo(s.world.managers[0], target)
  {
    hide Invariant, Step, ToGo, Slots, IsOverflow;
    FillPool(s, target);
    FillManager(s, target);
  }

  lemma {:induction false} Fill(s: Watch, target: nat) returns (schedule: seq<Action>, s': Watch)
    requires Filling(s, target)
    ensures s' == Watched(s, schedule) && Filling(s', target) && s'.world.pool.maxOverflow == s.world.pool.maxOverflow
    ensures Slots(s'.world.pool) == Slots(s.world.pool)
    ensures s'.world.managers[0].pc.Idle? && |s'.world.managers[0].table| == target
    decreases ToGo(s.world.managers[0], target)
  {
    hide Invariant, Step, ToGo, Observe;
    if s.world.managers[0].pc.Idle? && |s.world.managers[0].table| == target {
      schedule, s' := [], s;
    } else {
      var a := NextFill(s.world);
      FillStep(s, target);
      var rest;
      rest, s' := Fill(Observe(s, a), target);
      schedule := [a] + rest;
      assert schedule[1..] == rest;
    }
  }

  /** Manager 0 holds everything that can be free, and nothing else has happened. */
  ghost predicate Full(s: Watch, overflow: nat) {
    var w, p := s.world, s.world.pool;
    && Invariant(w) && |w.managers| >= 2 && Untouched(w, 1) && w.managers[0].pc.Idle?
    && p.free == [] && p.overflowFree == [] && p.overflowCapacity == overflow == s.peak
  }

  lemma FilledIsFull(s: Watch, target: nat)
    requires Filling(s, target) && s.world.managers[0].pc.Idle? && |s.world.managers[0].table| == target
    ensures Full(s, target - Slots(s.world.pool))
  {
    hide Shape, Ledger;
    BlocksAddUp(s.world);
  }

  /** Manager 0 is giving everything back, manager 1 is about to enter the growth path. */
  ghost predicate Racing(s: Watch, overflow: nat) {
    var w, p := s.world, s.world.pool;
    && Invariant(w) && |w.managers| >= 2 && Untouched(w, 2)
    && w.managers[0].table == [] && w.managers[0].pc.Draining?
    && w.managers[1].table == [] && w.managers[1].pc.GrowOverflow?
    && p.overflowCapacity == overflow == s.peak
  }

  /** Manager 1 finds both lists empty; only then does manager 0 begin its release. */
  lemma Race(s: Watch, overflow: nat) returns (schedule: seq<Action>, s': Watch)
    requires Full(s, overflow)
    ensures s' == Watched(s, schedule) && Racing(s', overflow) && s'.world.pool.maxOverflow == s.world.pool.maxOverflow
    ensures Slots(s'.world.pool) == Slots(s.world.pool)
  {
    var zero := Zeros(s.world.pool.kvDim);
    var a, b, c, d := BeginAppend(1, zero, zero), Advance(1), Advance(1), BeginRelease(0);
    var s1, s2, s3, s4 := RaceStates(s, overflow);
    hide Invariant, Step, Observe;
    schedule, s' := [a] + [b] + [c] + [d], s4;
    WatchedOne(s, a);
    WatchedOne(s1, b);
    WatchedOne(s2, c);
    WatchedOne(s3, d);
    WatchedConcat(s, [a], [b]);
    WatchedConcat(s, [a] + [b], [c]);
    WatchedConcat(s, [a] + [b] + [c], [d]);
  }

  lemma RaceStates(s: Watch, overflow: nat) returns (s1: Watch, s2: Watch, s3: Watch, s4: Watch)
    requires Full(s, overflow)
    ensures var zero := Zeros(s.world.pool.kvDim);
      && s1 == Observe(s, BeginAppend(1, zero, zero)) && s2 == Observe(s1, Advance(1))
      && s3 == Observe(s2, Advance(1)) && s4 == Observe(s3, BeginRelease(0))
    ensures Racing(s4, overflow) && s4.world.pool == s.world.pool
  {
    hide Shape, Ledger, AllConsistent;
    var zero := Zeros(s.world.pool.kvDim);
    s1 := Observe(s, BeginAppend(1, zero, zero));
    assert s1.world == Put(s.world, s.world.pool, 1, Manager([], 0, PopPrimary(zero, zero)));
    s2 := Observe(s1, Advance(1));
    assert s2.world == Put(s1.world, s.world.pool, 1, Manager([], 0, PopOverflow(zero, zero)));
    s3 := Observe(s2, Advance(1));
    assert s3.world == Put(s2.world, s.world.pool, 1, Manager([], 0, GrowOverflow(zero, zero)));
    s4 := Observe(s3, BeginRelease(0));
  }

  lemma GiveBackStep(s: Watch, overflow: nat)
    requires Racing(s, overflow) && s.world.managers[0].pc.rest != []
    ensures var s' := Observe(s, Advance(0));
      && Racing(s', overflow) && s'.world.pool.maxOverflow == s.world.pool.maxOverflow
      && Slots(s'.world.pool) == Slots(s.world.pool)
      && s'.world.managers[0].pc.rest == s.world.managers[0].pc.rest[1..]
  {
    hide Shape, Ledger, AllConsistent;
    var s' := Observe(s, Advance(0));
    assert s'.world.pool == ReleaseOne(s.world.pool, s.world.managers[0].pc.rest[0]);
  }

  lemma {:induction false} GiveBack(s: Watch, overflow: nat) returns (schedule: seq<Action>, s': Watch)
    requires Racing(s, overflow)
    ensures s' == Watched(s, schedule) && Racing(s', overflow) && s'.world.pool.maxOverflow == s.world.pool.maxOverflow
    ensures Slots(s'.world.pool) == Slots(s.world.pool)
    ensures |s'.world.pool.free| == Slots(s.world.pool) && |s'.world.pool.overflowFree| == overflow
    decreases |s.world.managers[0].pc.rest|
  {
    hide Shape, Ledger, AllConsistent, Step, Observe;
    if s.world.managers[0].pc.rest == [] {
      schedule, s' := [], s;
      BlocksAddUp(s.world);
    } else {
      GiveBackStep(s, overflow);
      var rest;
      rest, s' := GiveBack(Observe(s, Advance(0)), overflow);
      schedule := [Advance(0)] + rest;
      assert schedule[1..] == rest;
    }
  }

  lemma StartIsFilling(kvDim: nat, capacity: nat, cap: Option<nat>, managers: nat, overflow: nat)
    requires Accepts(kvDim, capacity) && managers >= 2 && overflow <= OVERFLOW_BIT && (cap.Some? ==> overflow <= cap.value)
    ensures Filling(Start(kvDim, capacity, cap, managers), capacity % U32_SPAN + overflow)
    ensures Slots(Start(kvDim, capacity, cap, managers).world.pool) == capacity % U32_SPAN
  {
    FreshWorldIsSound(kvDim, capacity, cap, managers);
    hide Shape, Ledger, AllConsistent;
  }

  lemma FillFresh(s: Watch, target: nat) returns (schedule: seq<Action>, s': Watch)
    requires Filling(s, target)
    ensures s' == Watched(s, schedule) && s'.world.pool.maxOverflow == s.world.pool.maxOverflow
    ensures Slots(s'.world.pool) == Slots(s.world.pool) <= target && Full(s', target - Slots(s.world.pool))
  {
    hide Invariant, Step, Observe, Watched, Full, Slots;
    schedule, s' := Fill(s, target);
    FilledIsFull(s', target);
  }

  /** With two managers a state is reached in which manager 1 is about to enter the growth path although the
      whole pool, all primary blocks and `overflow` overflow blocks, is free. */
  lemma EverythingFreeAndStillGrowing(kvDim: nat, capacity: nat, cap: Option<nat>, managers: nat, overflow: nat)
    returns (schedule: seq<Action>, s: Watch)
    requires Accepts(kvDim, capacity) && managers >= 2 && overflow <= OVERFLOW_BIT && (cap.Some? ==> overflow <= cap.value)
    ensures Invariant(FreshWorld(kvDim, capacity, cap, managers))
    ensures s == Watched(Start(kvDim, capacity, cap, managers), schedule) && Racing(s, overflow)
    ensures s.world.pool.maxOverflow == cap && |s.world.pool.free| == capacity % U32_SPAN && |s.world.pool.overflowFree| == overflow
  {
    hide Invariant, Step, Observe, Filling, Full, Slots, Watched;
    FreshWorldIsSound(kvDim, capacity, cap, managers);
    var start := Start(kvDim, capacity, cap, managers);
    var target := capacity % U32_SPAN + overflow;
    StartIsFilling(kvDim, capacity, cap, managers, overflow);
    var a, filled := FillFresh(start, target);
    var b, racing := Race(filled, overflow);
    var c;
    c, s := GiveBack(racing, overflow);
    schedule := a + b + c;
    WatchedConcat(start, a, b);
    WatchedConcat(start, a + b, c);
  }

  /** With two managers an append can be refused while every block of the pool is free. */
  lemma RefusedWithRoomLeft(kvDim: nat, capacity: nat, cap: nat, managers: nat) returns (schedule: seq<Action>)
    requires Accepts(kvDim, capacity) && managers >= 2 && cap <= OVERFLOW_BIT
    ensures Invariant(FreshWorld(kvDim, capacity, Some(cap), managers))
    ensures var w := Watched(Start(kvDim, capacity, Some(cap), managers), schedule).world;
      && Step(w, Advance(1)).event.Refused? && w.pool.maxOverflow == Some(cap)
      && OverflowInUse(w.pool) == 0 && |w.pool.free| == capacity % U32_SPAN
  {
    hide Invariant, Step, Observe;
    var s;
    schedule, s := EverythingFreeAndStillGrowing(kvDim, capacity, Some(cap), managers, cap);
    RefusesNow(s, cap);
  }

  lemma RefusesNow(s: Watch, cap: nat)
    requires Racing(s, cap) && s.world.pool.maxOverflow == Some(cap)
    ensures Step(s.world, Advance(1)).event.Refused?
  {
    hide Shape, Ledger, AllConsistent;
  }

  lemma RefusedAway(w: World, a: Action)
    requires Invariant(w) && Step(w, a).event.Refused? && !AtLimit(w.pool)
    ensures !RefusesOnlyAtLimit(w, [a])
  {
    hide Invariant, Step, AtLimit;
    assert [a][0] == a;
  }

  /** With two managers and room for two overflow blocks, two can be materialised although one at most was
      ever in use. */
  lemma CapacityPassesPeak(kvDim: nat, capacity: nat, cap: Option<nat>, managers: nat) returns (schedule: seq<Action>)
    requires Accepts(kvDim, capacity) && managers >= 2 && (cap.Some? ==> cap.value >= 2)
    ensures Invariant(FreshWorld(kvDim, capacity, cap, managers))
    ensures var s := Watched(Start(kvDim, capacity, cap, managers), schedule);
      s.world.pool.overflowCapacity == 2 && s.peak == 1
  {
    var before, s := EverythingFreeAndStillGrowing(kvDim, capacity, cap, managers, 1);
    schedule := before + [Advance(1)];
    GrowsOnce(s);
    hide Invariant, Step, Observe;
    WatchedOne(s, Advance(1));
    WatchedConcat(Start(kvDim, capacity, cap, managers), before, [Advance(1)]);
  }

  lemma GrowsOnce(s: Watch)
    requires Racing(s, 1) && |s.world.pool.overflowFree| == 1
    requires s.world.pool.maxOverflow.Some? ==> s.world.pool.maxOverflow.value >= 2
    ensures var s' := Observe(s, Advance(1)); s'.world.pool.overflowCapacity == 2 && s'.peak == 1
  {
    hide Shape, Ledger, AllConsistent;
  }

  // ----- Main results

  lemma RefusalsHold(kvDim: nat, capacity: nat, cap: Option<nat>, managers: nat, schedule: seq<Action>)
    requires Accepts(kvDim, capacity) && RefusalsAreSequential(managers, cap, capacity)
    requires Invariant(FreshWorld(kvDim, capacity, cap, managers))
    ensures RefusesOnlyAtLimit(FreshWorld(kvDim, capacity, cap, managers), schedule)
  {
    hide Invariant, Step, RefusesOnlyAtLimit;
    RefusesAtLimit(FreshWorld(kvDim, capacity, cap, managers), schedule);
  }

  lemma RefusalsBreak(kvDim: nat, capacity: nat, cap: Option<nat>, managers: nat) returns (schedule: seq<Action>)
    requires Accepts(kvDim, capacity) && !RefusalsAreSequential(managers, cap, capacity)
    requires Invariant(FreshWorld(kvDim, capacity, cap, managers))
    ensures !RefusesOnlyAtLimit(FreshWorld(kvDim, capacity, cap, managers), schedule)
  {
    hide Invariant, Step, Observe, Watched, RefusesOnlyAtLimit, FreshWorld;
    var start := Start(kvDim, capacity, cap, managers);
    var before := RefusedWithRoomLeft(kvDim, capacity, cap.value, managers);
    var w := Watched(start, before).world;
    assert !AtLimit(w.pool);
    RefusedAway(w, Advance(1));
    schedule := before + [Advance(1)];
    if RefusesOnlyAtLimit(start.world, schedule) {
      RefusesLater(start, before, [Advance(1)]);
    }
  }

  /** Every refusal of every schedule happens with the primary list empty and the cap's worth of overflow blocks
      in use exactly when there is at most one manager, or no cap that can be reached, or nothing to allocate. */
  lemma RefusalsAreSequentialExactlyWhen(kvDim: nat, capacity: nat, cap: Option<nat>, managers: nat)
    requires Accepts(kvDim, capacity)
    ensures Invariant(FreshWorld(kvDim, capacity, cap, managers))
    ensures (forall schedule :: RefusesOnlyAtLimit(FreshWorld(kvDim, capacity, cap, managers), schedule))
      <==> RefusalsAreSequential(managers, cap, capacity)
  {
    hide Invariant, Step, RefusesOnlyAtLimit, FreshWorld, RefusalsAreSequential;
    FreshWorldIsSound(kvDim, capacity, cap, managers);
    var w := FreshWorld(kvDim, capacity, cap, managers);
    if RefusalsAreSequential(managers, cap, capacity) {
      forall schedule
        ensures RefusesOnlyAtLimit(w, schedule)
      {
        RefusalsHold(kvDim, capacity, cap, managers, schedule);
      }
    } else {
      var schedule := RefusalsBreak(kvDim, capacity, cap, managers);
      assert !RefusesOnlyAtLimit(w, schedule);
    }
  }

  /** After every schedule overflow capacity is the peak of blocks in use since the last shrink that found
      none in use exactly when there is at most one manager or the cap is at most one. */
  lemma CapacityIsPeakExactlyWhen(kvDim: nat, capacity: nat, cap: Option<nat>, managers: nat)
    requires Accepts(kvDim, capacity)
    ensures Invariant(FreshWorld(kvDim, capacity, cap, managers))
    ensures (forall schedule ::
        Watched(Start(kvDim, capacity, cap, managers), schedule).world.pool.overflowCapacity
          == Watched(Start(kvDim, capacity, cap, managers), schedule).peak)
      <==> managers <= 1 || (cap.Some? && cap.value <= 1)
  {
    hide Invariant, Step, Observe, Watched;
    FreshWorldIsSound(kvDim, capacity, cap, managers);
    var start := Start(kvDim, capacity, cap, managers);
    if managers <= 1 || (cap.Some? && cap.value <= 1) {
      forall schedule
        ensures Watched(start, schedule).world.pool.overflowCapacity == Watched(start, schedule).peak
      {
        SteadyRun(start, schedule);
      }
    } else {
      var schedule := CapacityPassesPeak(kvDim, capacity, cap, managers);
      assert Watched(start, schedule).world.pool.overflowCapacity != Watched(start, schedule).peak;
    }
  }
}
