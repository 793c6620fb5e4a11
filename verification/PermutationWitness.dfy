/**
 The permutation-only witness: the selected experts' weighted outputs are summed in rank order and in
 expert-id order, and the two sums compared. The multiply-add is a parameter, rounding included; the two
 sums agree for every selection exactly when it commutes.
 */
module PermutationWitness {
  import opened Sequences
  import opened Options
  import opened ErrorStats
  import opened Arithmetic
  import Quantize

  // ----- Sorting by a key, and comparing memberships

  function InsertByKey<T>(s: seq<T>, x: T, key: T -> nat): (r: seq<T>)
    ensures |r| == |s| + 1 && multiset(r) == multiset(s) + multiset{x}
  {
    if s != [] && key(x) < key(s[|s| - 1]) then
      assert s == s[..|s| - 1] + [s[|s| - 1]];
      InsertByKey(s[..|s| - 1], x, key) + [s[|s| - 1]]
    else s + [x]
  }

  /** A stable sort by an integer key. */
  function SortByKey<T>(s: seq<T>, key: T -> nat): (r: seq<T>)
    ensures |r| == |s| && multiset(r) == multiset(s)
  {
    if s == [] then []
    else
      assert s == s[..|s| - 1] + [s[|s| - 1]];
      InsertByKey(SortByKey(s[..|s| - 1], key), s[|s| - 1], key)
  }

  ghost predicate Ascending<T>(s: seq<T>, key: T -> nat) {
    forall i, j :: 0 <= i < j < |s| ==> key(s[i]) <= key(s[j])
  }

  lemma {:induction false} InsertAscends<T>(s: seq<T>, x: T, key: T -> nat)
    requires Ascending(s, key)
    ensures Ascending(InsertByKey(s, x, key), key)
  {
    if s != [] && key(x) < key(s[|s| - 1]) {
      var front, last := s[..|s| - 1], s[|s| - 1];
      InsertAscends(front, x, key);
      var r := InsertByKey(front, x, key);
      forall i | 0 <= i < |r|
        ensures key(r[i]) <= key(last)
      {
        assert r[i] in multiset(front) + multiset{x};
        assert r[i] in front || r[i] == x;
      }
    }
  }

  lemma {:induction false} SortAscends<T>(s: seq<T>, key: T -> nat)
    ensures Ascending(SortByKey(s, key), key)
  {
    if s != [] {
      SortAscends(s[..|s| - 1], key);
      InsertAscends(SortByKey(s[..|s| - 1], key), s[|s| - 1], key);
    }
  }

  function Without<T>(s: seq<T>, k: nat): (r: seq<T>)
    requires k < |s|
    ensures |r| == |s| - 1
  {
    s[..k] + s[k + 1..]
  }

  lemma WithoutOne<T>(s: seq<T>, k: nat)
    requires k < |s|
    ensures multiset(s) == multiset(Without(s, k)) + multiset{s[k]}
  {
    assert s == s[..k] + [s[k]] + s[k + 1..];
  }

  lemma WithoutFromFront<T>(s: seq<T>, k: nat)
    requires k < |s| - 1
    ensures Without(s, k)[..|s| - 2] == Without(s[..|s| - 1], k) && Without(s, k)[|s| - 2] == s[|s| - 1]
  {
  }

  /** The last element of one arrangement occurs in the other, and without it the rest still match. */
  lemma Matching<T>(s: seq<T>, t: seq<T>) returns (k: nat)
    requires s != [] && multiset(s) == multiset(t)
    ensures |t| == |s| && k < |t| && t[k] == s[|s| - 1]
    ensures multiset(s[..|s| - 1]) == multiset(Without(t, k))
  {
    assert |s| == |multiset(s)| && |t| == |multiset(t)|;
    var n := |s| - 1;
    assert s[n] in multiset(t);
    k :| 0 <= k < |t| && t[k] == s[n];
    WithoutOne(t, k);
    WithoutOne(s, n);
    assert Without(s, n) == s[..n];
    Cancel(multiset(s[..n]), multiset(Without(t, k)), multiset{s[n]});
  }

  function Itself(): nat -> nat { x => x }

  lemma LargestLast(s: seq<nat>, x: nat)
    requires Ascending(s, Itself()) && x in s
    ensures x <= s[|s| - 1]
  {
  }

  lemma AscendingFront(s: seq<nat>)
    requires s != [] && Ascending(s, Itself())
    ensures Ascending(s[..|s| - 1], Itself())
  {
  }

  /** A multiset of ids has one ascending arrangement. */
  lemma {:induction false} AscendingIsUnique(s: seq<nat>, t: seq<nat>)
    requires Ascending(s, Itself()) && Ascending(t, Itself()) && multiset(s) == multiset(t)
    ensures s == t
  {
    hide Ascending, Itself;
    if s != [] {
      var n := |s| - 1;
      assert |t| == |multiset(t)| == |multiset(s)| == |s|;
      assert s[n] in multiset(t) && t[n] in multiset(s);
      LargestLast(t, s[n]);
      LargestLast(s, t[n]);
      WithoutOne(s, n);
      WithoutOne(t, n);
      assert Without(s, n) == s[..n] && Without(t, n) == t[..n];
      Cancel(multiset(s[..n]), multiset(t[..n]), multiset{s[n]});
      AscendingFront(s);
      AscendingFront(t);
      AscendingIsUnique(s[..n], t[..n]);
    } else {
      assert |t| == |multiset(t)|;
    }
  }

  /** `same_membership`: the two lists hold the same ids, each as often. */
  method SameMembership(left: seq<nat>, right: seq<nat>) returns (same: bool)
    ensures same <==> multiset(left) == multiset(right)
  {
    if |left| != |right| {
      assert |multiset(left)| != |multiset(right)|;
      return false;
    }
    var l, r := SortByKey(left, Itself()), SortByKey(right, Itself());
    SortAscends(left, Itself());
    SortAscends(right, Itself());
    if multiset(left) == multiset(right) {
      AscendingIsUnique(l, r);
    }
    same := l == r;
  }

  // ----- Sums in a given order

  /** The float operations of the accumulation: the zeroed vector and `acc + weight * value`. */
  datatype Adder<!T> = Adder(zero: T, mulAdd: (T, T, T) -> T)

  /** The accumulated value after the pairs of a weight and a value, in order. */
  function Acc<T>(ad: Adder<T>, pairs: seq<(T, T)>): T {
    if pairs == [] then ad.zero
    else ad.mulAdd(Acc(ad, pairs[..|pairs| - 1]), pairs[|pairs| - 1].0, pairs[|pairs| - 1].1)
  }

  /** After `done`, adding `p` and then `q` is adding `q` and then `p`. */
  predicate SwapsAfter<T(==)>(ad: Adder<T>, done: seq<(T, T)>, p: (T, T), q: (T, T)) {
    ad.mulAdd(ad.mulAdd(Acc(ad, done), p.0, p.1), q.0, q.1) == ad.mulAdd(ad.mulAdd(Acc(ad, done), q.0, q.1), p.0, p.1)
  }

  /** Two neighbouring additions can always be swapped. */
  ghost predicate Commutes<T(!new)>(ad: Adder<T>) {
    forall done, p, q :: SwapsAfter(ad, done, p, q)
  }

  lemma {:induction false} MoveToEnd<T(!new)>(ad: Adder<T>, pairs: seq<(T, T)>, k: nat)
    requires Commutes(ad) && k < |pairs|
    ensures Acc(ad, pairs) == Acc(ad, Without(pairs, k) + [pairs[k]])
  {
    var n := |pairs| - 1;
    if k == n {
      WithoutLast(pairs);
      assert Without(pairs, k) + [pairs[k]] == pairs;
    } else {
      var front, last := pairs[..n], pairs[n];
      MoveToEnd(ad, front, k);
      WithoutFromFront(pairs, k);
      hide Without;
      var rest := Without(front, k);
      assert SwapsAfter(ad, rest, pairs[k], last);
      assert (rest + [pairs[k]])[..|rest|] == rest;
      var all := Without(pairs, k);
      assert (all + [pairs[k]])[..|all|] == all;
    }
  }

  /** If neighbours can be swapped, the sum does not depend on the order. */
  lemma {:induction false} OrderDoesNotMatter<T(!new)>(ad: Adder<T>, a: seq<(T, T)>, b: seq<(T, T)>)
    requires Commutes(ad) && multiset(a) == multiset(b)
    ensures Acc(ad, a) == Acc(ad, b)
  {
    if a != [] {
      var n := |a| - 1;
      var k := Matching(a, b);
      MoveToEnd(ad, b, k);
      hide Without, Commutes;
      OrderDoesNotMatter(ad, a[..n], Without(b, k));
      assert (Without(b, k) + [b[k]])[..n] == Without(b, k);
    } else {
      assert |b| == |multiset(b)|;
    }
  }

  lemma WithoutLast<T>(s: seq<T>)
    requires s != []
    ensures Without(s, |s| - 1) == s[..|s| - 1]
  {
  }

  // ----- The witness

  /** A selected expert: id, weight, frozen output. */
  datatype Term<T> = Term(id: nat, weight: T, output: seq<T>)

  function IdOf<T>(): Term<T> -> nat { (t: Term<T>) => t.id }

  function Mapped<A, B>(s: seq<A>, f: A -> B): (r: seq<B>)
    ensures |r| == |s|
  {
    seq(|s|, i requires 0 <= i < |s| => f(s[i]))
  }

  lemma {:induction false} MappedPermutes<A, B>(s: seq<A>, t: seq<A>, f: A -> B)
    requires multiset(s) == multiset(t)
    ensures multiset(Mapped(s, f)) == multiset(Mapped(t, f))
  {
    if s != [] {
      var n := |s| - 1;
      var k := Matching(s, t);
      MappedPermutes(s[..n], Without(t, k), f);
      WithoutOne(Mapped(t, f), k);
      assert Without(Mapped(t, f), k) == Mapped(Without(t, k), f);
      assert Mapped(s, f) == Mapped(s[..n], f) + [f(s[n])];
    } else {
      assert |t| == |multiset(t)|;
    }
  }

  /** What a term adds to component `j`. */
  function PairAt<T>(ad: Adder<T>, j: nat): Term<T> -> (T, T) {
    (t: Term<T>) => (t.weight, if j < |t.output| then t.output[j] else ad.zero)
  }

  /** The weighted sum of the outputs, component by component, in the given order. */
  function SumOf<T>(ad: Adder<T>, terms: seq<Term<T>>, width: nat): (r: seq<T>)
    ensures |r| == width
  {
    seq(width, j requires 0 <= j < width => Acc(ad, Mapped(terms, PairAt(ad, j))))
  }

  ghost predicate AllWide<T>(terms: seq<Term<T>>, width: nat) {
    forall t :: t in terms ==> |t.output| == width
  }

  lemma AccOneMore<T>(ad: Adder<T>, terms: seq<Term<T>>, i: nat, j: nat)
    requires i < |terms| && j < |terms[i].output|
    ensures Acc(ad, Mapped(terms[..i + 1], PairAt(ad, j)))
         == ad.mulAdd(Acc(ad, Mapped(terms[..i], PairAt(ad, j))), terms[i].weight, terms[i].output[j])
  {
    var f := PairAt(ad, j);
    assert Mapped(terms[..i + 1], f)[..i] == Mapped(terms[..i], f);
  }

  /** The `accumulate` closure: add every weighted output into a zeroed vector. */
  method Accumulate<T>(ad: Adder<T>, ordered: seq<Term<T>>, width: nat) returns (output: array<T>)
    requires AllWide(ordered, width)
    ensures fresh(output) && output[..] == SumOf(ad, ordered, width)
  {
    hide Acc, Mapped;
    output := new T[width](_ => ad.zero);
    AccOfNothing(ad, ordered);
    for i := 0 to |ordered|
      invariant forall j :: 0 <= j < width ==> output[j] == Acc(ad, Mapped(ordered[..i], PairAt(ad, j)))
    {
      for d := 0 to width
        invariant forall j :: 0 <= j < d ==> output[j] == Acc(ad, Mapped(ordered[..i + 1], PairAt(ad, j)))
        invariant forall j :: d <= j < width ==> output[j] == Acc(ad, Mapped(ordered[..i], PairAt(ad, j)))
      {
        AccOneMore(ad, ordered, i, d);
        output[d] := ad.mulAdd(output[d], ordered[i].weight, ordered[i].output[d]);
      }
    }
    assert ordered[..|ordered|] == ordered;
  }

  lemma AccOfNothing<T>(ad: Adder<T>, terms: seq<Term<T>>)
    ensures forall j: nat :: Acc(ad, Mapped(terms[..0], PairAt(ad, j))) == ad.zero
  {
  }

  /** No difference: the same bits everywhere, and where an error is defined it is zero. */
  ghost predicate NoDifference(ev: Evidence) {
    && ev.exactEqual && ev.leftNonfinite == ev.rightNonfinite && ev.nonfiniteMismatch == 0
    && (ev.maxAbsolute.Some? ==> ev.maxAbsolute == ev.meanAbsolute == ev.meanSquare == Some(0.0))
  }

  /** The comparison reports no difference exactly when the two vectors are equal. */
  lemma NoDifferenceIsEquality<T>(rd: Reading<T>, v: seq<T>, w: seq<T>, ev: Evidence)
    requires |v| == |w| && Describes(rd, v, w, ev)
    ensures NoDifference(ev) <==> v == w
  {
    hide Errors, IsMaxRelative, IsWorst, Count;
    if v == w {
      NoErrors(rd, v, ev);
      CountSame(v, LeftNonfinite(rd), RightNonfinite(rd));
      NoneCounted(v, w, NonfiniteMismatch(rd));
    }
  }

  lemma NoErrors<T>(rd: Reading<T>, v: seq<T>, ev: Evidence)
    requires Describes(rd, v, v, ev)
    ensures ev.maxAbsolute.Some? ==> ev.maxAbsolute == ev.meanAbsolute == ev.meanSquare == Some(0.0)
  {
    hide Errors, IsMaxRelative, Count;
    MeanRmsMax(rd, v, v, ev);
    if ev.maxAbsolute.Some? {
      ZeroSquare(ev.meanAbsolute.value);
    }
  }

  lemma ZeroSquare(x: real)
    requires 0.0 <= x && x * x <= 0.0
    ensures x == 0.0
  {
    SquaresOrder(0.0, x);
  }

  lemma {:induction false} NoneCounted<E>(left: seq<E>, right: seq<E>, test: (E, E) -> bool)
    requires |left| == |right| && forall i :: 0 <= i < |left| ==> !test(left[i], right[i])
    ensures Count(left, right, test) == 0
  {
    if left != [] {
      NoneCounted(left[..|left| - 1], right[..|right| - 1], test);
    }
  }

  lemma {:induction false} CountSame<E>(v: seq<E>, a: (E, E) -> bool, b: (E, E) -> bool)
    requires forall i :: 0 <= i < |v| ==> a(v[i], v[i]) == b(v[i], v[i])
    ensures Count(v, v, a) == Count(v, v, b)
  {
    if v != [] {
      CountSame(v[..|v| - 1], a, b);
    }
  }

  ghost predicate Usable<T>(ids: seq<nat>, weights: seq<T>, outputs: seq<seq<T>>) {
    && ids != [] && |ids| == |weights| == |outputs| && Distinct(ids)
    && outputs[0] != [] && forall i :: 0 <= i < |outputs| ==> |outputs[i]| == |outputs[0]|
  }

  function Production<T>(ids: seq<nat>, weights: seq<T>, outputs: seq<seq<T>>): (r: seq<Term<T>>)
    requires |ids| == |weights| == |outputs|
    ensures |r| == |ids|
  {
    seq(|ids|, i requires 0 <= i < |ids| == |weights| == |outputs| => Term(ids[i], weights[i], outputs[i]))
  }

  /** The sum in rank order and the sum in the order of expert ids. */
  function RankSum<T>(ad: Adder<T>, ids: seq<nat>, weights: seq<T>, outputs: seq<seq<T>>): seq<T>
    requires ids != [] && |ids| == |weights| == |outputs|
  {
    SumOf(ad, Production(ids, weights, outputs), |outputs[0]|)
  }

  function IdSum<T>(ad: Adder<T>, ids: seq<nat>, weights: seq<T>, outputs: seq<seq<T>>): seq<T>
    requires ids != [] && |ids| == |weights| == |outputs|
  {
    SumOf(ad, SortByKey(Production(ids, weights, outputs), IdOf()), |outputs[0]|)
  }

  datatype Witness = Witness(productionOrder: seq<nat>, canonicalOrder: seq<nat>, comparison: Evidence)

  /** `permutation_only_witness`: exactly the well-formed selections have a witness; it lists the same ids in
      strictly ascending order and compares the sum in rank order with the sum in id order. */
  method PermutationOnlyWitness<T(==)>(ad: Adder<T>, rd: Reading<T>, ids: seq<nat>, weights: seq<T>, outputs: seq<seq<T>>)
    returns (result: Option<Witness>)
    ensures result.Some? <==> Usable(ids, weights, outputs)
    ensures result.Some? ==> var w := result.value;
      && w.productionOrder == ids && multiset(w.canonicalOrder) == multiset(ids)
      && (forall i, j :: 0 <= i < j < |w.canonicalOrder| ==> w.canonicalOrder[i] < w.canonicalOrder[j])
      && |RankSum(ad, ids, weights, outputs)| == |IdSum(ad, ids, weights, outputs)|
      && Describes(rd, RankSum(ad, ids, weights, outputs), IdSum(ad, ids, weights, outputs), w.comparison)
  {
    if ids == [] || |ids| != |weights| || |ids| != |outputs| {
      return None;
    }
    DistinctBySize(ids);
    if |Elements(ids)| != |ids| {
      return None;
    }
    var width := |outputs[0]|;
    if width == 0 || exists i :: 0 <= i < |outputs| && |outputs[i]| != width {
      return None;
    }
    hide Describes, Distinct, SumOf, Mapped, SortByKey;
    var production := Production(ids, weights, outputs);
    assert Mapped(production, IdOf()) == ids by {
      ProductionIds(ids, weights, outputs);
    }
    var canonicalOrder, comparison := CompareOrders(ad, rd, production, width);
    result := Some(Witness(ids, canonicalOrder, comparison));
  }

  lemma ProductionIds<T>(ids: seq<nat>, weights: seq<T>, outputs: seq<seq<T>>)
    requires |ids| == |weights| == |outputs|
    ensures Mapped(Production(ids, weights, outputs), IdOf()) == ids
  {
  }

  /** Sort, accumulate both orders and compare. */
  method CompareOrders<T(==)>(ad: Adder<T>, rd: Reading<T>, production: seq<Term<T>>, width: nat)
    returns (canonicalOrder: seq<nat>, comparison: Evidence)
    requires AllWide(production, width) && width > 0 && Distinct(Mapped(production, IdOf()))
    ensures multiset(canonicalOrder) == multiset(Mapped(production, IdOf()))
    ensures forall i, j :: 0 <= i < j < |canonicalOrder| ==> canonicalOrder[i] < canonicalOrder[j]
    ensures Describes(rd, SumOf(ad, production, width), SumOf(ad, SortByKey(production, IdOf()), width), comparison)
  {
    hide Describes, Distinct, SumOf, Mapped, SortByKey;
    var canonical := SortByKey(production, IdOf());
    SortAscends(production, IdOf());
    SortedIds(production, canonical);
    StillWide(production, canonical, width);
    var productionSum := Accumulate(ad, production, width);
    var canonicalSum := Accumulate(ad, canonical, width);
    var result := Compare(rd, productionSum[..], canonicalSum[..]);
    canonicalOrder, comparison := Mapped(canonical, IdOf()), result.value;
  }

  lemma StillWide<T>(s: seq<Term<T>>, t: seq<Term<T>>, width: nat)
    requires AllWide(s, width) && multiset(s) == multiset(t)
    ensures AllWide(t, width)
  {
    forall x | x in t
      ensures |x.output| == width
    {
      assert x in multiset(s);
    }
  }

  /** Sorting distinct ids makes them strictly ascending. */
  lemma SortedIds<T>(production: seq<Term<T>>, canonical: seq<Term<T>>)
    requires multiset(production) == multiset(canonical) && Ascending(canonical, IdOf())
    requires Distinct(Mapped(production, IdOf()))
    ensures multiset(Mapped(canonical, IdOf())) == multiset(Mapped(production, IdOf()))
    ensures forall i, j :: 0 <= i < j < |canonical| ==> Mapped(canonical, IdOf())[i] < Mapped(canonical, IdOf())[j]
  {
    MappedPermutes(production, canonical, IdOf());
    var p, c := Mapped(production, IdOf()), Mapped(canonical, IdOf());
    forall i, j | 0 <= i < j < |canonical|
      ensures c[i] < c[j]
    {
      assert IdOf()(canonical[i]) <= IdOf()(canonical[j]);
      if c[i] == c[j] {
        OccursOnce(p, c[i]);
        OccursTwice(c, i, j);
      }
    }
  }

  lemma {:induction false} OccursOnce(ids: seq<nat>, id: nat)
    requires Distinct(ids)
    ensures multiset(ids)[id] <= 1
  {
    if ids != [] {
      var n := |ids| - 1;
      assert ids == ids[..n] + [ids[n]];
      OccursOnce(ids[..n], id);
      if ids[n] == id {
        assert id !in ids[..n];
      }
    }
  }

  // ----- When reordering alone changes nothing

  /** For every usable selection, reordering the experts changes no bit of the sum. */
  ghost predicate NeverDiffers<T(!new)>(ad: Adder<T>) {
    forall ids, weights, outputs :: SameSums(ad, ids, weights, outputs)
  }

  ghost predicate SameSums<T>(ad: Adder<T>, ids: seq<nat>, weights: seq<T>, outputs: seq<seq<T>>) {
    Usable(ids, weights, outputs) ==> RankSum(ad, ids, weights, outputs) == IdSum(ad, ids, weights, outputs)
  }

  lemma CommutingSumsAgree<T(!new)>(ad: Adder<T>, s: seq<Term<T>>, t: seq<Term<T>>, width: nat)
    requires Commutes(ad) && multiset(s) == multiset(t)
    ensures SumOf(ad, s, width) == SumOf(ad, t, width)
  {
    hide Commutes, Acc, Mapped;
    forall j | 0 <= j < width
      ensures SumOf(ad, s, width)[j] == SumOf(ad, t, width)[j]
    {
      MappedPermutes(s, t, PairAt(ad, j));
      OrderDoesNotMatter(ad, Mapped(s, PairAt(ad, j)), Mapped(t, PairAt(ad, j)));
    }
  }

  lemma {:induction false} SortedAlready<T>(s: seq<T>, key: T -> nat)
    requires Ascending(s, key)
    ensures SortByKey(s, key) == s
  {
    if s != [] {
      SortedAlready(s[..|s| - 1], key);
      assert s[..|s| - 1] + [s[|s| - 1]] == s;
    }
  }

  /** The terms of `pairs`, one component wide, with ids 0, 1, … */
  function Numbered<T>(pairs: seq<(T, T)>): (r: seq<Term<T>>)
    ensures |r| == |pairs|
  {
    seq(|pairs|, i requires 0 <= i < |pairs| => Term(i, pairs[i].0, [pairs[i].1]))
  }

  lemma SortOneMore<T>(s: seq<T>, x: T, key: T -> nat)
    ensures SortByKey(s + [x], key) == InsertByKey(SortByKey(s, key), x, key)
  {
    assert (s + [x])[..|s|] == s;
  }

  lemma InsertBefore<T>(s: seq<T>, y: T, x: T, key: T -> nat)
    requires key(x) < key(y)
    ensures InsertByKey(s + [y], x, key) == InsertByKey(s, x, key) + [y]
  {
    assert (s + [y])[..|s|] == s;
  }

  lemma InsertAfter<T>(s: seq<T>, x: T, key: T -> nat)
    requires forall i :: 0 <= i < |s| ==> key(s[i]) < key(x)
    ensures InsertByKey(s, x, key) == s + [x]
  {
  }

  lemma AscendingOneMore<T>(s: seq<T>, x: T, key: T -> nat)
    requires Ascending(s, key) && forall i :: 0 <= i < |s| ==> key(s[i]) < key(x)
    ensures Ascending(s + [x], key)
  {
  }

  /** An ascending list followed by two more in the wrong order. */
  lemma SwappedSort<T>(d: seq<T>, p: T, q: T, key: T -> nat)
    requires Ascending(d, key) && key(q) < key(p) && forall i :: 0 <= i < |d| ==> key(d[i]) < key(q)
    ensures SortByKey(d + [p] + [q], key) == d + [q] + [p]
  {
    hide *;
    var front := d + [p];
    AscendingOneMore(d, p, key);
    SortedAlready(front, key);
    SortOneMore(front, q, key);
    InsertBefore(d, p, q, key);
    InsertAfter(d, q, key);
    calc {
      SortByKey(front + [q], key);
      InsertByKey(front, q, key);
      InsertByKey(d, q, key) + [p];
      d + [q] + [p];
    }
  }

  lemma AccTwoMore<T>(ad: Adder<T>, done: seq<(T, T)>, p: (T, T), q: (T, T))
    ensures Acc(ad, done + [p] + [q]) == ad.mulAdd(ad.mulAdd(Acc(ad, done), p.0, p.1), q.0, q.1)
  {
    assert (done + [p] + [q])[..|done| + 1] == done + [p] && (done + [p])[..|done|] == done;
  }

  function Narrow<T>(id: nat, pair: (T, T)): Term<T> { Term(id, pair.0, [pair.1]) }

  lemma SumOfTwoMore<T>(ad: Adder<T>, done: seq<(T, T)>, p: (T, T), q: (T, T), x: nat, y: nat)
    ensures SumOf(ad, Numbered(done) + [Narrow(x, p)] + [Narrow(y, q)], 1)
         == [ad.mulAdd(ad.mulAdd(Acc(ad, done), p.0, p.1), q.0, q.1)]
  {
    var f := PairAt(ad, 0);
    var pairs := Mapped(Numbered(done) + [Narrow(x, p)] + [Narrow(y, q)], f);
    assert f(Narrow(x, p)) == p && f(Narrow(y, q)) == q;
    assert forall i :: 0 <= i < |done| ==> f(Numbered(done)[i]) == done[i];
    assert pairs == done + [p] + [q];
    AccTwoMore(ad, done, p, q);
  }

  /** A list of terms as the three inputs of the witness. */
  lemma AsSelection<T>(terms: seq<Term<T>>) returns (ids: seq<nat>, weights: seq<T>, outputs: seq<seq<T>>)
    requires terms != [] && Distinct(Mapped(terms, IdOf())) && AllWide(terms, 1)
    ensures Usable(ids, weights, outputs) && Production(ids, weights, outputs) == terms && |outputs[0]| == 1
  {
    ids := Mapped(terms, IdOf());
    weights := Mapped(terms, (t: Term<T>) => t.weight);
    outputs := Mapped(terms, (t: Term<T>) => t.output);
    assert forall i :: 0 <= i < |terms| ==> terms[i] in terms;
  }

  lemma SwappedTerms<T>(done: seq<(T, T)>, p: (T, T), q: (T, T)) returns (terms: seq<Term<T>>)
    ensures terms == Numbered(done) + [Narrow(|done| + 1, p)] + [Narrow(|done|, q)]
    ensures Distinct(Mapped(terms, IdOf())) && AllWide(terms, 1)
    ensures SortByKey(terms, IdOf()) == Numbered(done) + [Narrow(|done|, q)] + [Narrow(|done| + 1, p)]
  {
    hide SortByKey;
    var d, key := Numbered(done), IdOf<T>();
    terms := d + [Narrow(|done| + 1, p)] + [Narrow(|done|, q)];
    assert forall i :: 0 <= i < |d| ==> key(d[i]) == i;
    SwappedSort(d, Narrow(|done| + 1, p), Narrow(|done|, q), key);
  }

  /** If two neighbours cannot be swapped, two experts in the opposite order of their ids show it. */
  lemma SwapShows<T(!new)>(ad: Adder<T>, done: seq<(T, T)>, p: (T, T), q: (T, T))
    returns (ids: seq<nat>, weights: seq<T>, outputs: seq<seq<T>>)
    requires !SwapsAfter(ad, done, p, q)
    ensures !SameSums(ad, ids, weights, outputs)
  {
    hide SortByKey, SumOf, Acc, Distinct, AllWide, Mapped, Numbered;
    var terms := SwappedTerms(done, p, q);
    ids, weights, outputs := AsSelection(terms);
    SumOfTwoMore(ad, done, p, q, |done| + 1, |done|);
    SumOfTwoMore(ad, done, q, p, |done|, |done| + 1);
  }

  /** Main theorem: reordering changes no bit, whatever is selected, exactly when the multiply-add commutes on
      what it can have accumulated. */
  lemma NeverDiffersExactlyWhenCommuting<T(!new)>(ad: Adder<T>)
    ensures NeverDiffers(ad) <==> Commutes(ad)
  {
    hide SortByKey, SumOf, Mapped;
    if Commutes(ad) {
      forall ids, weights, outputs
        ensures SameSums(ad, ids, weights, outputs)
      {
        if Usable(ids, weights, outputs) {
          var production := Production<T>(ids, weights, outputs);
          CommutingSumsAgree(ad, production, SortByKey(production, IdOf()), |outputs[0]|);
        }
      }
    } else {
      var done, p, q :| !SwapsAfter(ad, done, p, q);
      var ids, weights, outputs := SwapShows(ad, done, p, q);
      assert !SameSums(ad, ids, weights, outputs);
    }
  }

  // ----- Exact and rounded addition

  const Exact: Adder<real> := Adder(0.0, (acc, w, x) => acc + w * x)

  /** Exact arithmetic commutes. */
  lemma ExactCommutes()
    ensures Commutes(Exact)
  {
  }

  /** In exact arithmetic the sum of a list of products is their sum: parts add up, and one pair is its product. */
  lemma {:induction false} ExactSumsAdd(a: seq<(real, real)>, b: seq<(real, real)>)
    ensures Acc(Exact, a + b) == Acc(Exact, a) + Acc(Exact, b)
    ensures forall p :: Acc(Exact, [p]) == p.0 * p.1
  {
    if b == [] {
      assert a + b == a;
    } else {
      ExactSumsAdd(a, b[..|b| - 1]);
      assert (a + b)[..|a + b| - 1] == a + b[..|b| - 1];
    }
    assert forall p: (real, real) :: [p][..0] == [];
  }

  const TwoTo23: real := 8_388_608.0
  const TwoTo24: real := 16_777_216.0

  /** The nearest number with the 24 significant bits of an `f32`, ties to even, for an unbounded exponent:
      scale by powers of two until the integers are exactly the 24-bit numbers, round, and scale back. */
  function Round24(x: real): real
    decreases Scalings(x)
  {
    if x == 0.0 then 0.0
    else if Abs(x) < TwoTo23 then Doubled(x); Round24(2.0 * x) / 2.0
    else if Abs(x) >= TwoTo24 then Halved(x); 2.0 * Round24(x / 2.0)
    else Quantize.Round(x) as real
  }

  /** Bounds the scalings by two that `x` needs. */
  function Scalings(x: real): int {
    if x == 0.0 then 0
    else if Abs(x) < TwoTo24 then (TwoTo23 / Abs(x)).Floor
    else Abs(x).Floor
  }

  lemma Doubled(x: real)
    requires 0.0 < Abs(x) < TwoTo23
    ensures 0 <= Scalings(2.0 * x) < Scalings(x)
  {
    var y := Abs(x);
    assert Abs(2.0 * x) == 2.0 * y;
    var q := TwoTo23 / y;
    assert q * y == TwoTo23;
    assert q > 1.0;
    assert TwoTo23 / (2.0 * y) == q / 2.0;
  }

  lemma Halved(x: real)
    requires Abs(x) >= TwoTo24
    ensures 0 <= Scalings(x / 2.0) < Scalings(x)
  {
    var y := Abs(x / 2.0);
    assert Abs(x) == 2.0 * y;
    if y < TwoTo24 {
      var q := TwoTo23 / y;
      assert q * y == TwoTo23;
      assert 0.0 < q <= 1.0;
    }
  }

  /** The relative error is at most half a unit in the last of 24 places. */
  lemma {:induction false} Round24IsClose(x: real)
    ensures TwoTo24 * Abs(Round24(x) - x) <= Abs(x)
    decreases Scalings(x)
  {
    if 0.0 < Abs(x) < TwoTo23 {
      Doubled(x);
      Round24IsClose(2.0 * x);
    } else if Abs(x) >= TwoTo24 {
      Halved(x);
      Round24IsClose(x / 2.0);
    } else if x != 0.0 {
      Quantize.RoundIsNear(x);
    }
  }

  lemma IntegersStay(n: int)
    requires 8_388_608 <= n < 16_777_216 || -16_777_216 < n <= -8_388_608
    ensures Round24(n as real) == n as real
  {
    Quantize.RoundOfInteger(n);
  }

  const Rounded: Adder<real> := Adder(0.0, (acc, w, x) => Round24(acc + Round24(w * x)))

  /** Rounded arithmetic does not: 2^24 - 1, 2^23 and -2^23 sum to 2^24 in this order, because the first sum is
      not a number of 24 bits, and to 2^24 - 1 with the last two swapped. */
  lemma RoundedDoesNotCommute()
    ensures !Commutes(Rounded) && !NeverDiffers(Rounded)
  {
    var done: seq<(real, real)> := [(1.0, 16_777_215.0)];
    assert Acc(Rounded, done[..0]) == 0.0 && done[..|done| - 1] == done[..0];
    IntegersStay(16_777_215);
    IntegersStay(8_388_608);
    IntegersStay(-8_388_608);
    assert Acc(Rounded, done) == 16_777_215.0;
    assert Round24(25_165_823.0) == 25_165_824.0;
    assert Round24(16_777_216.0) == 16_777_216.0;
    assert Round24(8_388_607.0) == 8_388_607.0;
    assert !SwapsAfter(Rounded, done, (1.0, 8_388_608.0), (1.0, -8_388_608.0));
    NeverDiffersExactlyWhenCommuting(Rounded);
  }
}
