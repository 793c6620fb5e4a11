/**
 The LRU hit-rate simulation over a routing trace, and its stack property: the size-`k` cache always
 holds the `k` most recently used distinct ids, so larger caches contain smaller ones.
 */
module Lru {
  import opened Sequences
  import opened Options

  /** Remove the first occurrence of `e`, as `deque.remove` does. */
  function Remove(s: seq<int>, e: int): seq<int> {
    if s == [] then [] else if s[0] == e then s[1..] else [s[0]] + Remove(s[1..], e)
  }

  /** The distinct ids of a trace, least recently used first. */
  function Recency(trace: seq<int>): seq<int> {
    if trace == [] then []
    else Remove(Recency(trace[..|trace| - 1]), trace[|trace| - 1]) + [trace[|trace| - 1]]
  }

  /** The `k` most recent of them; a negative `k` is never reached, so it bounds nothing. */
  function Window(recency: seq<int>, k: int): seq<int> {
    if 0 <= k < |recency| then recency[|recency| - k..] else recency
  }

  function Contents(trace: seq<int>, k: int): seq<int> { Window(Recency(trace), k) }

  function Hits(trace: seq<int>, k: int): nat {
    if trace == [] then 0
    else
      var front := trace[..|trace| - 1];
      Hits(front, k) + (if trace[|trace| - 1] in Contents(front, k) then 1 else 0)
  }

  function Flatten(records: seq<seq<int>>): seq<int> {
    if records == [] then [] else Flatten(records[..|records| - 1]) + records[|records| - 1]
  }

  // ----- What recency order is

  /** The position of the last use of `e` in the trace, or -1. */
  function LastUse(trace: seq<int>, e: int): int {
    if trace == [] then -1
    else if trace[|trace| - 1] == e then |trace| - 1 else LastUse(trace[..|trace| - 1], e)
  }

  lemma {:induction false} RemoveDistinct(s: seq<int>, e: int)
    requires Distinct(s)
    ensures Distinct(Remove(s, e)) && e !in Remove(s, e)
    ensures forall x :: x in Remove(s, e) <==> x in s && x != e
  {
    if s != [] {
      assert s == [s[0]] + s[1..];
      RemoveDistinct(s[1..], e);
      assert s[0] !in s[1..];
    }
  }

  lemma {:induction false} RemoveAbsent(s: seq<int>, e: int)
    requires e !in s
    ensures Remove(s, e) == s
  {
    if s != [] {
      RemoveAbsent(s[1..], e);
    }
  }

  lemma {:induction false} RemoveConcat(s: seq<int>, t: seq<int>, e: int)
    ensures Remove(s + t, e) == if e in s then Remove(s, e) + t else s + Remove(t, e)
  {
    if s == [] {
      assert s + t == t;
    } else {
      assert (s + t)[1..] == s[1..] + t;
      if s[0] != e {
        RemoveConcat(s[1..], t, e);
      }
    }
  }

  lemma {:induction false} RemoveLength(s: seq<int>, e: int)
    ensures |Remove(s, e)| == if e in s then |s| - 1 else |s|
  {
    if s != [] {
      RemoveLength(s[1..], e);
    }
  }

  ghost predicate ByLastUse(s: seq<int>, trace: seq<int>) {
    forall i, j :: 0 <= i < j < |s| ==> LastUse(trace, s[i]) < LastUse(trace, s[j])
  }

  lemma {:induction false} RemoveKeepsOrder(s: seq<int>, e: int, trace: seq<int>)
    requires ByLastUse(s, trace)
    ensures ByLastUse(Remove(s, e), trace)
    ensures forall x :: x in Remove(s, e) ==> x in s
  {
    if s != [] && s[0] != e {
      var rest := Remove(s[1..], e);
      RemoveKeepsOrder(s[1..], e, trace);
      forall j | 0 <= j < |rest|
        ensures LastUse(trace, s[0]) < LastUse(trace, rest[j])
      {
        assert rest[j] in rest;
        assert rest[j] in s[1..];
      }
    }
  }

  /** The reference reading of `Recency`: exactly the ids of the trace, once each, by last use. */
  lemma {:induction false} RecencyIsByLastUse(trace: seq<int>)
    ensures Distinct(Recency(trace)) && ByLastUse(Recency(trace), trace)
    ensures forall x :: x in Recency(trace) <==> x in trace
  {
    if trace != [] {
      var front, e := trace[..|trace| - 1], trace[|trace| - 1];
      RecencyIsByLastUse(front);
      RemoveDistinct(Recency(front), e);
      RemoveKeepsOrder(Recency(front), e, front);
      assert trace == front + [e];
      var kept := Remove(Recency(front), e);
      forall i | 0 <= i < |kept|
        ensures LastUse(trace, kept[i]) == LastUse(front, kept[i]) < |front|
      {
        assert kept[i] in kept;
        LastUseBound(front, kept[i]);
      }
    }
  }

  lemma {:induction false} LastUseBound(trace: seq<int>, e: int)
    ensures -1 <= LastUse(trace, e) < |trace|
  {
    if trace != [] {
      LastUseBound(trace[..|trace| - 1], e);
    }
  }

  // ----- One access

  /** What one access does to the deque (`k != 0`). */
  function Access(lru: seq<int>, k: int, e: int): seq<int>
    requires k != 0
  {
    if e in lru then Remove(lru, e) + [e]
    else (if |lru| == k then lru[1..] else lru) + [e]
  }

  lemma EvictedIsUsedAgain(r: seq<int>, k: nat, e: int)
    requires Distinct(r) && 0 < k < |r| && e in r[..|r| - k]
    ensures e !in Window(r, k) && Access(Window(r, k), k, e) == Window(Remove(r, e) + [e], k)
  {
    hide Remove;
    var oldest, w := r[..|r| - k], r[|r| - k..];
    assert e !in w by {
      var i :| 0 <= i < |oldest| && oldest[i] == e;
      forall j | 0 <= j < |w|
        ensures w[j] != e
      {
        assert r[i] != r[|oldest| + j];
      }
    }
    assert Remove(r, e) == Remove(oldest, e) + w by {
      assert r == oldest + w;
      RemoveConcat(oldest, w, e);
    }
    RemoveLength(oldest, e);
    DropFront(Remove(oldest, e), w, e, k);
  }

  lemma DropFront(front: seq<int>, w: seq<int>, e: int, k: nat)
    requires |w| == k > 0
    ensures Window(front + w + [e], k) == w[1..] + [e]
  {
  }

  lemma CachedIsUsedAgain(r: seq<int>, k: nat, e: int)
    requires Distinct(r) && 0 < k < |r| && e !in r[..|r| - k] && e in r[|r| - k..]
    ensures Access(Window(r, k), k, e) == Window(Remove(r, e) + [e], k)
  {
    hide Remove;
    var oldest, w := r[..|r| - k], r[|r| - k..];
    assert r == oldest + w;
    RemoveConcat(oldest, w, e);
    RemoveLength(w, e);
    assert Remove(r, e) + [e] == oldest + (Remove(w, e) + [e]);
  }

  /** The bounded cache and the unbounded recency order stay in step. */
  lemma AccessIsWindow(r: seq<int>, k: int, e: int)
    requires Distinct(r) && k != 0
    ensures Access(Window(r, k), k, e) == Window(Remove(r, e) + [e], k)
  {
    hide Remove;
    RemoveLength(r, e);
    if 0 < k < |r| {
      assert r == r[..|r| - k] + r[|r| - k..];
      if e in r[..|r| - k] {
        EvictedIsUsedAgain(r, k, e);
      } else if e in r[|r| - k..] {
        CachedIsUsedAgain(r, k, e);
      } else {
        RemoveAbsent(r, e);
      }
    } else if e !in r {
      RemoveAbsent(r, e);
    }
  }

  /** One more access of the trace. */
  lemma OneMoreAccess(trace: seq<int>, k: int, e: int)
    requires k != 0
    ensures Contents(trace + [e], k) == Access(Contents(trace, k), k, e)
    ensures Hits(trace + [e], k) == Hits(trace, k) + if e in Contents(trace, k) then 1 else 0
    ensures Distinct(Contents(trace, k)) && (k > 0 ==> |Contents(trace, k)| <= k)
  {
    assert (trace + [e])[..|trace|] == trace;
    RecencyIsByLastUse(trace);
    AccessIsWindow(Recency(trace), k, e);
  }

  /** The body of the simulation's inner loop: look up, move to the back or evict and append. */
  method Touch(lru: seq<int>, inSet: set<int>, k: int, e: int) returns (lru': seq<int>, inSet': set<int>, hit: bool)
    requires Distinct(lru) && k != 0 && inSet == Elements(lru)
    ensures hit == (e in lru) && lru' == Access(lru, k, e)
    ensures inSet' == Elements(lru')
  {
    lru', inSet', hit := lru, inSet, e in inSet;
    RemoveDistinct(lru, e);
    if hit {
      lru' := Remove(lru, e);
    } else {
      if |lru| == k {
        inSet' := inSet - {lru[0]};
        lru' := lru[1..];
        assert lru == [lru[0]] + lru';
      }
    }
    ghost var kept := lru';
    assert forall x :: x in inSet' + {e} <==> x in kept || x == e;
    lru' := lru' + [e];
    inSet' := inSet' + {e};
    assert forall x :: x in lru' <==> x in kept || x == e;
  }

  // ----- The simulation

  /** The state of a simulation after the accesses in `seen`. */
  ghost predicate Simulated(lru: seq<int>, inSet: set<int>, hits: nat, total: nat, seen: seq<int>, k: int) {
    && lru == Contents(seen, k) && inSet == Elements(lru)
    && hits == Hits(seen, k) && total == |seen|
  }

  /** The inner loop: the accesses of one record. */
  method ReplayRecord(experts: seq<int>, k: int, lru0: seq<int>, inSet0: set<int>, hits0: nat, total0: nat, ghost seen: seq<int>)
    returns (lru: seq<int>, inSet: set<int>, hits: nat, total: nat)
    requires k != 0 && Simulated(lru0, inSet0, hits0, total0, seen, k)
    ensures Simulated(lru, inSet, hits, total, seen + experts, k)
  {
    hide Contents, Hits, Access, Elements, Distinct;
    lru, inSet, hits, total := lru0, inSet0, hits0, total0;
    assert seen + experts[..0] == seen;
    for i := 0 to |experts|
      invariant Simulated(lru, inSet, hits, total, seen + experts[..i], k)
    {
      var e := experts[i];
      OneMoreAccess(seen + experts[..i], k, e);
      var hit;
      lru, inSet, hit := Touch(lru, inSet, k, e);
      hits := hits + if hit then 1 else 0;
      total := total + 1;
      assert (seen + experts[..i]) + [e] == seen + experts[..i + 1];
    }
    assert seen + experts[..|experts|] == seen + experts;
  }

  /** `simulate_lru`: hits and accesses, or `None` for the `IndexError` of popping an empty deque. */
  method SimulateLru(records: seq<seq<int>>, k: int) returns (r: Option<(nat, nat)>)
    ensures var trace := Flatten(records);
      r == if k == 0 && trace != [] then None else Some((Hits(trace, k), |trace|))
  {
    var lru: seq<int>, inSet: set<int> := [], {};
    var hits, total := 0, 0;
    for n := 0 to |records|
      invariant Simulated(lru, inSet, hits, total, Flatten(records[..n]), k)
      invariant k == 0 ==> Flatten(records[..n]) == []
    {
      hide Simulated;
      FlattenStep(records, n);
      if k == 0 && records[n] != [] {
        FlattenIsPrefix(records, n);
        return None;
      }
      if k != 0 {
        lru, inSet, hits, total := ReplayRecord(records[n], k, lru, inSet, hits, total, Flatten(records[..n]));
      }
    }
    assert records[..|records|] == records;
    r := Some((hits, total));
  }

  lemma FlattenStep(records: seq<seq<int>>, n: nat)
    requires n < |records|
    ensures Flatten(records[..n + 1]) == Flatten(records[..n]) + records[n]
  {
    assert records[..n + 1][..n] == records[..n];
  }

  lemma {:induction false} FlattenIsPrefix(records: seq<seq<int>>, n: nat)
    requires n < |records| && records[n] != []
    ensures Flatten(records) != []
    decreases |records|
  {
    if n < |records| - 1 {
      FlattenIsPrefix(records[..|records| - 1], n);
    }
  }

  // ----- When an access hits

  /** The ids used after the last use of `e`. */
  ghost function UsedSince(trace: seq<int>, e: int): set<int> {
    set x | x in trace && LastUse(trace, x) > LastUse(trace, e)
  }

  lemma UsedSinceIsTail(trace: seq<int>, p: nat)
    requires p < |Recency(trace)|
    ensures |UsedSince(trace, Recency(trace)[p])| == |Recency(trace)| - 1 - p
  {
    hide LastUse, Recency;
    RecencyIsByLastUse(trace);
    var r := Recency(trace);
    var tail := r[p + 1..];
    forall x
      ensures x in UsedSince(trace, r[p]) <==> x in tail
    {
      if x in r {
        var i :| 0 <= i < |r| && r[i] == x;
        assert i > p ==> tail[i - p - 1] == x;
      }
    }
    assert UsedSince(trace, r[p]) == Elements(tail);
    DistinctBySize(tail);
  }

  /** The reference reading of the cache: it holds `e` exactly when `e` was used and fewer than `k` other ids have
      been used since; a negative `k` is no bound. */
  lemma CachedExactlyWhen(trace: seq<int>, k: int, e: int)
    ensures e in Contents(trace, k) <==> e in trace && (k < 0 || |UsedSince(trace, e)| < k)
  {
    hide Recency, UsedSince;
    RecencyIsByLastUse(trace);
    var r := Recency(trace);
    if e in trace {
      var p :| 0 <= p < |r| && r[p] == e;
      UsedSinceIsTail(trace, p);
      if 0 <= k < |r| {
        var w := r[|r| - k..];
        assert p >= |r| - k ==> w[p - (|r| - k)] == e;
      }
    }
  }

  // ----- The stack property

  /** Inclusion: what a cache of size `k` holds is the most recent part of what a larger one holds. */
  lemma LargerContainsSmaller(trace: seq<int>, k: nat, k': int)
    requires k <= k' || k' < 0
    ensures |Contents(trace, k)| <= |Contents(trace, k')|
    ensures Contents(trace, k) == Contents(trace, k')[|Contents(trace, k')| - |Contents(trace, k)|..]
  {
  }

  /** Main theorem: hits never decrease as the cache grows. */
  lemma {:induction false} HitsAreMonotone(trace: seq<int>, k: nat, k': int)
    requires k <= k' || k' < 0
    ensures Hits(trace, k) <= Hits(trace, k')
  {
    hide Contents;
    if trace != [] {
      var front, e := trace[..|trace| - 1], trace[|trace| - 1];
      HitsAreMonotone(front, k, k');
      LargerContainsSmaller(front, k, k');
      var small, large := Contents(front, k), Contents(front, k');
      if e in small {
        var i :| 0 <= i < |small| && small[i] == e;
        assert large[|large| - |small| + i] == e;
      }
    }
  }
}
