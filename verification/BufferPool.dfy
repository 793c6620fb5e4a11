/**
 The expert buffer pool: a primary and an optional shadow free list, RAII guards, and promotion of a
 shadow buffer to the primary half. Buffers are numbered; their bytes are not modelled.
 */
module BufferPool {
  import opened Options

  datatype Slot = Primary | Shadow

  /** A `PooledBuffer`: which buffer it wraps and which list it returns to. */
  datatype Guard = Guard(buffer: nat, slot: Slot)

  /** The free lists, and the buffers out in guards of either kind. */
  datatype State = State(free: seq<nat>, shadow: Option<seq<nat>>, heldPrimary: multiset<nat>, heldShadow: multiset<nat>) {
    predicate Out(g: Guard) { g.buffer in (if g.slot.Primary? then heldPrimary else heldShadow) }

    function Lend(g: Guard): State {
      if g.slot.Primary? then this.(heldPrimary := heldPrimary + multiset{g.buffer})
      else this.(heldShadow := heldShadow + multiset{g.buffer})
    }

    function Return(g: Guard): State {
      if g.slot.Primary? then this.(heldPrimary := heldPrimary - multiset{g.buffer})
      else this.(heldShadow := heldShadow - multiset{g.buffer})
    }
  }

  function Numbered(from: nat, n: nat): (s: seq<nat>)
    ensures |s| == n && forall i :: 0 <= i < n ==> s[i] == from + i
  {
    seq(n, i requires 0 <= i < n => from + i)
  }

  function New(primarySlots: nat, shadowSlots: nat): State {
    State(Numbered(0, primarySlots), if shadowSlots > 0 then Some(Numbered(primarySlots, shadowSlots)) else None,
          multiset{}, multiset{})
  }

  function TryAcquire(s: State): (State, Option<Guard>) {
    if s.free == [] then (s, None)
    else
      var g := Guard(s.free[|s.free| - 1], Primary);
      (s.(free := s.free[..|s.free| - 1]).Lend(g), Some(g))
  }

  function TryAcquireShadow(s: State): (State, Option<Guard>) {
    if s.shadow.None? || s.shadow.value == [] then (s, None)
    else
      var list := s.shadow.value;
      var g := Guard(list[|list| - 1], Shadow);
      (s.(shadow := Some(list[..|list| - 1])).Lend(g), Some(g))
  }

  function Promote(s: State, g: Guard): State { s.Return(g).Lend(g.(slot := Primary)) }

  /** A shadow guard falls back to the primary list when there is no shadow list. */
  function Drop(s: State, g: Guard): State {
    if g.slot.Shadow? && s.shadow.Some? then s.Return(g).(shadow := Some(s.shadow.value + [g.buffer]))
    else s.Return(g).(free := s.free + [g.buffer])
  }

  // ----- The pool as an object

  class BufferPool {
    var free: seq<nat>
    var shadow: Option<seq<nat>>
    ghost var heldPrimary: multiset<nat>
    ghost var heldShadow: multiset<nat>

    ghost function Model(): State
      reads this
    {
      State(free, shadow, heldPrimary, heldShadow)
    }

    constructor WithShadow(primarySlots: nat, shadowSlots: nat)
      requires primarySlots > 0
      ensures Model() == New(primarySlots, shadowSlots)
    {
      free := Numbered(0, primarySlots);
      shadow := if shadowSlots > 0 then Some(Numbered(primarySlots, shadowSlots)) else None;
      heldPrimary, heldShadow := multiset{}, multiset{};
    }

    method TryAcquirePrimary() returns (g: Option<Guard>)
      modifies this
      ensures (Model(), g) == TryAcquire(old(Model()))
    {
      if free == [] {
        return None;
      }
      var buffer := free[|free| - 1];
      free := free[..|free| - 1];
      heldPrimary := heldPrimary + multiset{buffer};
      g := Some(Guard(buffer, Primary));
    }

    method TryAcquireFromShadow() returns (g: Option<Guard>)
      modifies this
      ensures (Model(), g) == TryAcquireShadow(old(Model()))
    {
      if shadow.None? || shadow.value == [] {
        return None;
      }
      var list := shadow.value;
      shadow := Some(list[..|list| - 1]);
      heldShadow := heldShadow + multiset{list[|list| - 1]};
      g := Some(Guard(list[|list| - 1], Shadow));
    }

    method PromoteShadow(g: Guard) returns (promoted: Guard)
      requires Model().Out(g)
      modifies this
      ensures Model() == Promote(old(Model()), g) && promoted == Guard(g.buffer, Primary) && Model().Out(promoted)
    {
      promoted := g;
      if g.slot.Shadow? {
        promoted := g.(slot := Primary);
        heldShadow := heldShadow - multiset{g.buffer};
        heldPrimary := heldPrimary + multiset{g.buffer};
      }
      assert Model().heldPrimary == Promote(old(Model()), g).heldPrimary;
    }

    method DropGuard(g: Guard)
      requires Model().Out(g)
      modifies this
      ensures Model() == Drop(old(Model()), g)
    {
      if g.slot.Primary? {
        heldPrimary := heldPrimary - multiset{g.buffer};
        free := free + [g.buffer];
      } else {
        heldShadow := heldShadow - multiset{g.buffer};
        if shadow.Some? {
          shadow := Some(shadow.value + [g.buffer]);
        } else {
          free := free + [g.buffer];
        }
      }
    }
  }

  // ----- Runs of operations

  datatype Operation = Acquire | AcquireShadow | PromoteGuard(g: Guard) | ReleaseGuard(g: Guard)

  function Perform(s: State, op: Operation): State {
    match op
    case Acquire => TryAcquire(s).0
    case AcquireShadow => TryAcquireShadow(s).0
    case PromoteGuard(g) => if s.Out(g) then Promote(s, g) else s
    case ReleaseGuard(g) => if s.Out(g) then Drop(s, g) else s
  }

  function Run(s: State, ops: seq<Operation>): State
    decreases |ops|
  {
    if ops == [] then s else Run(Perform(s, ops[0]), ops[1..])
  }

  /** How many promotions in a run really move a buffer out of the shadow half. */
  function Promotions(s: State, ops: seq<Operation>): nat
    decreases |ops|
  {
    if ops == [] then 0
    else
      (if ops[0].PromoteGuard? && ops[0].g.slot.Shadow? && s.Out(ops[0].g) then 1 else 0)
        + Promotions(Perform(s, ops[0]), ops[1..])
  }

  function ShadowList(s: State): seq<nat> { if s.shadow.Some? then s.shadow.value else [] }

  function AllBuffers(s: State): multiset<nat> {
    multiset(s.free) + multiset(ShadowList(s)) + s.heldPrimary + s.heldShadow
  }

  /** Buffers whose home is the primary list: on it, or in a guard that will return there. */
  function PrimaryHome(s: State): nat { |s.free| + |s.heldPrimary| }

  function ShadowHome(s: State): nat { |ShadowList(s)| + |s.heldShadow| }

  /** A shadow guard exists only beside a shadow list. */
  predicate Consistent(s: State) { s.shadow.None? ==> s.heldShadow == multiset{} }

  /** Same buffers, and `moved` of them change home from the shadow half to the primary half. */
  ghost predicate Conserves(s: State, s': State, moved: nat) {
    && Consistent(s')
    && AllBuffers(s') == AllBuffers(s)
    && PrimaryHome(s') == PrimaryHome(s) + moved
    && ShadowHome(s') + moved == ShadowHome(s)
  }

  lemma AcquireConserves(s: State)
    requires Consistent(s)
    ensures Conserves(s, TryAcquire(s).0, 0)
  {
    if s.free != [] {
      var n := |s.free| - 1;
      assert s.free == s.free[..n] + [s.free[n]];
      var f, x := multiset(s.free[..n]), multiset{s.free[n]};
      assert multiset(s.free) == f + x;
      assert (f + x) + multiset(ShadowList(s)) + s.heldPrimary == f + multiset(ShadowList(s)) + (s.heldPrimary + x);
    }
  }

  lemma AcquireShadowConserves(s: State)
    requires Consistent(s)
    ensures Conserves(s, TryAcquireShadow(s).0, 0)
  {
    var list := ShadowList(s);
    if list != [] {
      var n := |list| - 1;
      assert list == list[..n] + [list[n]];
      var l, x := multiset(list[..n]), multiset{list[n]};
      assert multiset(list) == l + x;
      assert multiset(s.free) + (l + x) + s.heldPrimary + s.heldShadow
          == multiset(s.free) + l + s.heldPrimary + (s.heldShadow + x);
    }
  }

  lemma PromoteConserves(s: State, g: Guard)
    requires Consistent(s) && s.Out(g)
    ensures Conserves(s, Promote(s, g), if g.slot.Shadow? then 1 else 0)
  {
    var x, lists := multiset{g.buffer}, multiset(s.free) + multiset(ShadowList(s));
    if g.slot.Shadow? {
      TakeOut(s.heldShadow, g.buffer);
      var rest := s.heldShadow - x;
      assert lists + (s.heldPrimary + x) + rest == lists + s.heldPrimary + (rest + x);
    } else {
      TakeOut(s.heldPrimary, g.buffer);
    }
  }

  lemma DropConserves(s: State, g: Guard)
    requires Consistent(s) && s.Out(g)
    ensures Conserves(s, Drop(s, g), 0)
  {
    var x, f, l := multiset{g.buffer}, multiset(s.free), multiset(ShadowList(s));
    if g.slot.Shadow? {
      TakeOut(s.heldShadow, g.buffer);
      var rest := s.heldShadow - x;
      assert f + (l + x) + s.heldPrimary + rest == f + l + s.heldPrimary + (rest + x);
    } else {
      TakeOut(s.heldPrimary, g.buffer);
      var rest := s.heldPrimary - x;
      assert (f + x) + l + rest == f + l + (rest + x);
    }
  }

  lemma PerformConserves(s: State, op: Operation)
    requires Consistent(s)
    ensures Conserves(s, Perform(s, op), Promotions(s, [op]))
  {
    hide Conserves, Consistent, TryAcquire, TryAcquireShadow, Drop, Promote, AllBuffers;
    assert Promotions(Perform(s, op), [op][1..]) == 0;
    match op
    case Acquire => AcquireConserves(s);
    case AcquireShadow => AcquireShadowConserves(s);
    case PromoteGuard(g) =>
      if s.Out(g) {
        PromoteConserves(s, g);
      } else {
        Unchanged(s);
      }
    case ReleaseGuard(g) =>
      if s.Out(g) {
        DropConserves(s, g);
      } else {
        Unchanged(s);
      }
  }

  lemma Unchanged(s: State)
    requires Consistent(s)
    ensures Conserves(s, s, 0)
  {
  }

  lemma TakeOut(m: multiset<nat>, x: nat)
    requires x in m
    ensures (m - multiset{x}) + multiset{x} == m && |m - multiset{x}| == |m| - 1
  {
  }

  /** Main theorem: over every run no buffer is lost or duplicated, and each promotion moves exactly one
      buffer's home from the shadow half to the primary half for good. */
  lemma {:induction false} RunConserves(s: State, ops: seq<Operation>)
    requires Consistent(s)
    ensures Conserves(s, Run(s, ops), Promotions(s, ops))
    decreases |ops|
  {
    hide Perform, Consistent, AllBuffers;
    if ops != [] {
      PerformConserves(s, ops[0]);
      RunConserves(Perform(s, ops[0]), ops[1..]);
      assert Promotions(Perform(s, ops[0]), [ops[0]][1..]) == 0;
    }
  }

  lemma {:induction false} NumberedOnce(from: nat, n: nat, b: nat)
    ensures multiset(Numbered(from, n))[b] == if from <= b < from + n then 1 else 0
  {
    if n > 0 {
      NumberedOnce(from, n - 1, b);
      assert Numbered(from, n) == Numbered(from, n - 1) + [from + n - 1];
    }
  }

  /** Every buffer of a pool is in exactly one place after any run; the shadow half shrinks by one buffer
      per promotion, and once all are promoted no shadow buffer can ever be acquired again. */
  lemma PoolConserves(primarySlots: nat, shadowSlots: nat, ops: seq<Operation>, b: nat)
    ensures var s := Run(New(primarySlots, shadowSlots), ops);
      var p := Promotions(New(primarySlots, shadowSlots), ops);
      && AllBuffers(s)[b] == (if b < primarySlots + shadowSlots then 1 else 0)
      && p <= shadowSlots && PrimaryHome(s) == primarySlots + p && ShadowHome(s) == shadowSlots - p
      && (p == shadowSlots ==> TryAcquireShadow(s).1 == None)
  {
    hide Run, Promotions, Perform;
    var s := New(primarySlots, shadowSlots);
    RunConserves(s, ops);
    NumberedOnce(0, primarySlots, b);
    NumberedOnce(primarySlots, shadowSlots, b);
    assert AllBuffers(s) == multiset(Numbered(0, primarySlots)) + multiset(Numbered(primarySlots, shadowSlots));
  }

  /** After any run an acquire succeeds exactly when fewer guards of its half are out than the half has buffers,
      promotions counted, and it hands out a buffer that was on the list and is not there any more. */
  lemma AcquireSucceedsExactlyWhen(primarySlots: nat, shadowSlots: nat, ops: seq<Operation>)
    ensures var s := Run(New(primarySlots, shadowSlots), ops);
      var p := Promotions(New(primarySlots, shadowSlots), ops);
      && (TryAcquire(s).1.Some? <==> |s.heldPrimary| < primarySlots + p)
      && (TryAcquireShadow(s).1.Some? <==> |s.heldShadow| < shadowSlots - p)
      && Takes(s.free, TryAcquire(s).0.free, TryAcquire(s).1, Primary)
      && Takes(ShadowList(s), ShadowList(TryAcquireShadow(s).0), TryAcquireShadow(s).1, Shadow)
  {
    hide Run, Promotions, New;
    var s := Run(New(primarySlots, shadowSlots), ops);
    PoolConserves(primarySlots, shadowSlots, ops, 0);
    if s.free != [] {
      PoolConserves(primarySlots, shadowSlots, ops, s.free[|s.free| - 1]);
      LastOnly(s.free);
    }
    var list := ShadowList(s);
    if list != [] {
      PoolConserves(primarySlots, shadowSlots, ops, list[|list| - 1]);
      LastOnly(list);
    }
  }

  /** The list loses the guard's buffer and nothing else; without a guard it stays as it is. */
  ghost predicate Takes(list: seq<nat>, list': seq<nat>, g: Option<Guard>, slot: Slot) {
    match g
    case None => list' == list
    case Some(g) => g.slot == slot && g.buffer !in list' && multiset(list) == multiset(list') + multiset{g.buffer}
  }

  lemma LastOnly(list: seq<nat>)
    requires list != []
    ensures var n := |list| - 1;
      && multiset(list) == multiset(list[..n]) + multiset{list[n]}
      && (multiset(list)[list[n]] <= 1 ==> list[n] !in list[..n])
  {
    var n := |list| - 1;
    assert list == list[..n] + [list[n]];
    assert list[n] in list[..n] ==> multiset(list[..n])[list[n]] >= 1;
  }

  /** Acquiring undoes a drop: the buffer returned last is handed out next, from the list its guard belongs to,
      and a promoted guard's buffer from the primary list. */
  lemma AcquireUndoesDrop(s: State, g: Guard)
    requires s.Out(g)
    ensures g.slot.Primary? ==> TryAcquire(Drop(s, g)) == (s, Some(g))
    ensures g.slot.Shadow? && s.shadow.Some? ==> TryAcquireShadow(Drop(s, g)) == (s, Some(g))
    ensures var g' := g.(slot := Primary);
      Promote(s, g).Out(g') && TryAcquire(Drop(Promote(s, g), g')) == (Promote(s, g), Some(g'))
  {
    if g.slot.Primary? {
      PrimaryUndone(s, g);
    } else if s.shadow.Some? {
      TakeOut(s.heldShadow, g.buffer);
      assert (s.shadow.value + [g.buffer])[..|s.shadow.value|] == s.shadow.value;
    }
    hide TryAcquire, TryAcquireShadow, Drop;
    PrimaryUndone(Promote(s, g), g.(slot := Primary));
  }

  lemma PrimaryUndone(s: State, g: Guard)
    requires s.Out(g) && g.slot.Primary?
    ensures TryAcquire(Drop(s, g)) == (s, Some(g))
  {
    TakeOut(s.heldPrimary, g.buffer);
    assert (s.free + [g.buffer])[..|s.free|] == s.free;
  }
}
