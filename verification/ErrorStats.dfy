/**
 The numerical evidence of the semantic comparison: one pass over two vectors that keeps sums, maxima and
 the worst index. Arithmetic is exact.
 */
module ErrorStats {
  import opened Arithmetic
  import opened Options

  /** How an element is read: its `f64` value, and whether it is finite. */
  datatype Reading<!E> = Reading(finite: E -> bool, value: E -> real)

  predicate FinitePair<E>(rd: Reading<E>, l: E, r: E) { rd.finite(l) && rd.finite(r) }

  /** How far the two values are apart. */
  function AbsError<E>(rd: Reading<E>, l: E, r: E): (e: real)
    ensures e >= 0.0 && (rd.value(r) == rd.value(l) + e || rd.value(l) == rd.value(r) + e)
  {
    Abs(rd.value(r) - rd.value(l))
  }

  /** The absolute errors of the finite pairs, in order. */
  function Errors<E>(rd: Reading<E>, left: seq<E>, right: seq<E>): (es: seq<real>)
    requires |left| == |right|
    ensures |es| <= |left| && forall i :: 0 <= i < |es| ==> es[i] >= 0.0
  {
    if left == [] then []
    else
      var n := |left| - 1;
      Errors(rd, left[..n], right[..n])
      + if FinitePair(rd, left[n], right[n]) then [AbsError(rd, left[n], right[n])] else []
  }

  function Sum(es: seq<real>): real {
    if es == [] then 0.0 else Sum(es[..|es| - 1]) + es[|es| - 1]
  }

  function SumOfSquares(es: seq<real>): real {
    if es == [] then 0.0 else SumOfSquares(es[..|es| - 1]) + es[|es| - 1] * es[|es| - 1]
  }

  function Mean(es: seq<real>): real
    requires es != []
  {
    Sum(es) / |es| as real
  }

  function MeanSquare(es: seq<real>): real
    requires es != []
  {
    SumOfSquares(es) / |es| as real
  }

  /** How many pairs satisfy a test. */
  function Count<E>(left: seq<E>, right: seq<E>, test: (E, E) -> bool): (c: nat)
    requires |left| == |right|
    ensures c <= |left|
    ensures c == |left| <==> forall i :: 0 <= i < |left| ==> test(left[i], right[i])
  {
    if left == [] then 0
    else
      var n := |left| - 1;
      Count(left[..n], right[..n], test) + if test(left[n], right[n]) then 1 else 0
  }

  function SameBits<E(==)>(): (E, E) -> bool { (l, r) => l == r }

  function LeftNonfinite<E>(rd: Reading<E>): (E, E) -> bool { (l, r) => !rd.finite(l) }

  function RightNonfinite<E>(rd: Reading<E>): (E, E) -> bool { (l, r) => !rd.finite(r) }

  function NonfiniteMismatch<E(==)>(rd: Reading<E>): (E, E) -> bool { (l, r) => !FinitePair(rd, l, r) && l != r }

  function HasRelativeError<E>(rd: Reading<E>): (E, E) -> bool { (l, r) => HasRelative(rd, l, r) }

  /** `VectorNumericalEvidence`; `meanSquare` is the square of the reported RMS error. */
  datatype Evidence = Evidence(
    exactCount: nat, exactEqual: bool,
    maxAbsolute: Option<real>, meanSquare: Option<real>, meanAbsolute: Option<real>,
    maxRelative: Option<real>, relativeCount: nat,
    leftNonfinite: nat, rightNonfinite: nat, nonfiniteMismatch: nat,
    worstIndex: Option<nat>)

  /** `worst` is the first position at which the error is the largest; there is none when no pair is finite. */
  ghost predicate IsWorst<E>(rd: Reading<E>, left: seq<E>, right: seq<E>, worst: Option<nat>, largest: Option<real>)
    requires |left| == |right|
  {
    match worst
    case None => largest.None? && forall i :: 0 <= i < |left| ==> !FinitePair(rd, left[i], right[i])
    case Some(w) =>
      && w < |left| && FinitePair(rd, left[w], right[w]) && largest == Some(AbsError(rd, left[w], right[w]))
      && (forall i :: 0 <= i < |left| && FinitePair(rd, left[i], right[i]) ==> AbsError(rd, left[i], right[i]) <= largest.value)
      && (forall i :: 0 <= i < w && FinitePair(rd, left[i], right[i]) ==> AbsError(rd, left[i], right[i]) < largest.value)
  }

  /** `largest` is the largest error relative to a non-zero left value. */
  ghost predicate IsMaxRelative<E>(rd: Reading<E>, left: seq<E>, right: seq<E>, largest: Option<real>)
    requires |left| == |right|
  {
    && (largest.None? ==> forall i :: 0 <= i < |left| ==> !HasRelative(rd, left[i], right[i]))
    && (largest.Some? ==>
          && (exists i :: 0 <= i < |left| && HasRelative(rd, left[i], right[i]) && largest.value == RelError(rd, left[i], right[i]))
          && forall i :: 0 <= i < |left| && HasRelative(rd, left[i], right[i]) ==> RelError(rd, left[i], right[i]) <= largest.value)
  }

  predicate HasRelative<E>(rd: Reading<E>, l: E, r: E) { FinitePair(rd, l, r) && rd.value(l) != 0.0 }

  function RelError<E>(rd: Reading<E>, l: E, r: E): real
    requires HasRelative(rd, l, r)
  {
    AbsError(rd, l, r) / Abs(rd.value(l))
  }

  /** The evidence is what the two vectors say. */
  ghost predicate Describes<E>(rd: Reading<E>, left: seq<E>, right: seq<E>, ev: Evidence)
    requires |left| == |right|
  {
    var es := Errors(rd, left, right);
    && IsWorst(rd, left, right, ev.worstIndex, ev.maxAbsolute)
    && ev.meanAbsolute == (if es == [] then None else Some(Mean(es)))
    && ev.meanSquare == (if es == [] then None else Some(MeanSquare(es)))
    && IsMaxRelative(rd, left, right, ev.maxRelative)
    && (ev.exactEqual <==> left == right)
    && ev.exactCount == Count(left, right, SameBits())
    && ev.relativeCount == Count(left, right, HasRelativeError(rd))
    && ev.leftNonfinite == Count(left, right, LeftNonfinite(rd))
    && ev.rightNonfinite == Count(left, right, RightNonfinite(rd))
    && ev.nonfiniteMismatch == Count(left, right, NonfiniteMismatch(rd))
  }

  lemma CountStep<E>(left: seq<E>, right: seq<E>, i: nat, test: (E, E) -> bool)
    requires i < |left| == |right|
    ensures Count(left[..i + 1], right[..i + 1], test)
         == Count(left[..i], right[..i], test) + if test(left[i], right[i]) then 1 else 0
  {
    assert left[..i + 1][..i] == left[..i] && right[..i + 1][..i] == right[..i];
  }

  lemma ErrorsStep<E>(rd: Reading<E>, left: seq<E>, right: seq<E>, i: nat)
    requires i < |left| == |right|
    ensures var es, es' := Errors(rd, left[..i], right[..i]), Errors(rd, left[..i + 1], right[..i + 1]);
      if FinitePair(rd, left[i], right[i]) then
        var e := AbsError(rd, left[i], right[i]);
        es' == es + [e] && Sum(es') == Sum(es) + e && SumOfSquares(es') == SumOfSquares(es) + e * e
      else es' == es
  {
    assert left[..i + 1][..i] == left[..i] && right[..i + 1][..i] == right[..i];
    var es := Errors(rd, left[..i], right[..i]);
    if FinitePair(rd, left[i], right[i]) {
      assert (es + [AbsError(rd, left[i], right[i])])[..|es|] == es;
    }
  }

  lemma WorstStep<E>(rd: Reading<E>, left: seq<E>, right: seq<E>, i: nat, worst: Option<nat>, largest: Option<real>)
    requires i < |left| == |right| && IsWorst(rd, left[..i], right[..i], worst, largest)
    ensures if FinitePair(rd, left[i], right[i]) && (largest.None? || AbsError(rd, left[i], right[i]) > largest.value)
            then IsWorst(rd, left[..i + 1], right[..i + 1], Some(i), Some(AbsError(rd, left[i], right[i])))
            else IsWorst(rd, left[..i + 1], right[..i + 1], worst, largest)
  {
    hide FinitePair, AbsError;
    var l, r := left[..i + 1], right[..i + 1];
    assert forall j :: 0 <= j < i ==> l[j] == left[..i][j] && r[j] == right[..i][j];
  }

  lemma RelativeStep<E>(rd: Reading<E>, left: seq<E>, right: seq<E>, i: nat, largest: Option<real>)
    requires i < |left| == |right| && IsMaxRelative(rd, left[..i], right[..i], largest)
    ensures if HasRelative(rd, left[i], right[i]) && (largest.None? || RelError(rd, left[i], right[i]) > largest.value)
            then IsMaxRelative(rd, left[..i + 1], right[..i + 1], Some(RelError(rd, left[i], right[i])))
            else IsMaxRelative(rd, left[..i + 1], right[..i + 1], largest)
  {
    hide HasRelative, RelError;
    var l, r := left[..i + 1], right[..i + 1];
    assert forall j :: 0 <= j < i ==> l[j] == left[..i][j] && r[j] == right[..i][j];
    assert l[i] == left[i] && r[i] == right[i];
    if largest.Some? {
      var j :| 0 <= j < i && HasRelative(rd, left[..i][j], right[..i][j]) && largest.value == RelError(rd, left[..i][j], right[..i][j]);
      assert HasRelative(rd, l[j], r[j]) && largest.value == RelError(rd, l[j], r[j]);
    }
  }

  /** The running totals of the comparison loop. */
  datatype Tally = Tally(
    finitePairs: nat, absoluteSum: real, squaredSum: real, maxAbsolute: Option<real>, worstIndex: Option<nat>,
    maxRelative: Option<real>, relativeCount: nat, leftNonfinite: nat, rightNonfinite: nat, mismatch: nat)

  /** The totals describe the pairs seen so far. */
  ghost predicate Tallied<E>(rd: Reading<E>, left: seq<E>, right: seq<E>, t: Tally)
    requires |left| == |right|
  {
    && (var es := Errors(rd, left, right);
        t.finitePairs == |es| && t.absoluteSum == Sum(es) && t.squaredSum == SumOfSquares(es))
    && IsWorst(rd, left, right, t.worstIndex, t.maxAbsolute)
    && IsMaxRelative(rd, left, right, t.maxRelative)
    && t.relativeCount == Count(left, right, HasRelativeError(rd))
    && t.leftNonfinite == Count(left, right, LeftNonfinite(rd))
    && t.rightNonfinite == Count(left, right, RightNonfinite(rd))
    && t.mismatch == Count(left, right, NonfiniteMismatch(rd))
  }

  /** The body of the comparison loop. */
  method TallyPair<E(==)>(rd: Reading<E>, left: seq<E>, right: seq<E>, i: nat, t: Tally) returns (t': Tally)
    requires i < |left| == |right| && Tallied(rd, left[..i], right[..i], t)
    ensures Tallied(rd, left[..i + 1], right[..i + 1], t')
  {
    hide IsWorst, IsMaxRelative, Errors, Sum, SumOfSquares, Count, AbsError;
    CountStep(left, right, i, HasRelativeError(rd));
    CountStep(left, right, i, LeftNonfinite(rd));
    CountStep(left, right, i, RightNonfinite(rd));
    CountStep(left, right, i, NonfiniteMismatch(rd));
    ErrorsStep(rd, left, right, i);
    WorstStep(rd, left, right, i, t.worstIndex, t.maxAbsolute);
    RelativeStep(rd, left, right, i, t.maxRelative);
    var l, r := left[i], right[i];
    t' := t.(leftNonfinite := t.leftNonfinite + if rd.finite(l) then 0 else 1,
             rightNonfinite := t.rightNonfinite + if rd.finite(r) then 0 else 1);
    if !rd.finite(l) || !rd.finite(r) {
      t' := t'.(mismatch := t'.mismatch + if l != r then 1 else 0);
      return;
    }
    var absolute := AbsError(rd, l, r);
    t' := t'.(finitePairs := t'.finitePairs + 1,
              absoluteSum := t'.absoluteSum + absolute,
              squaredSum := t'.squaredSum + absolute * absolute);
    if t'.maxAbsolute.None? || absolute > t'.maxAbsolute.value {
      t' := t'.(maxAbsolute := Some(absolute), worstIndex := Some(i));
    }
    if rd.value(l) != 0.0 {
      var relative := absolute / Abs(rd.value(l));
      t' := t'.(relativeCount := t'.relativeCount + 1);
      if t'.maxRelative.None? || relative > t'.maxRelative.value {
        t' := t'.(maxRelative := Some(relative));
      }
    }
  }

  /** `compare`: None is the error "lengths differ or are empty". */
  method Compare<E(==)>(rd: Reading<E>, left: seq<E>, right: seq<E>) returns (result: Option<Evidence>)
    ensures result.Some? <==> left != [] && |left| == |right|
    ensures result.Some? ==> Describes(rd, left, right, result.value)
  {
    if left == [] || |left| != |right| {
      return None;
    }
    hide IsWorst, IsMaxRelative, Errors, Sum, SumOfSquares, Count;
    NothingCompared(rd, left, right);
    var exactCount := 0;
    for i := 0 to |left|
      invariant exactCount == Count(left[..i], right[..i], SameBits())
    {
      CountStep(left, right, i, SameBits());
      if left[i] == right[i] {
        exactCount := exactCount + 1;
      }
    }
    var t := Tally(0, 0.0, 0.0, None, None, None, 0, 0, 0, 0);
    for i := 0 to |left|
      invariant Tallied(rd, left[..i], right[..i], t)
    {
      t := TallyPair(rd, left, right, i, t);
    }
    assert left[..|left|] == left && right[..|left|] == right;
    result := Some(Evidence(
      exactCount, exactCount == |left|,
      t.maxAbsolute,
      if t.finitePairs > 0 then Some(t.squaredSum / t.finitePairs as real) else None,
      if t.finitePairs > 0 then Some(t.absoluteSum / t.finitePairs as real) else None,
      t.maxRelative, t.relativeCount, t.leftNonfinite, t.rightNonfinite, t.mismatch, t.worstIndex));
  }

  lemma NothingCompared<E>(rd: Reading<E>, left: seq<E>, right: seq<E>)
    requires |left| == |right|
    ensures IsWorst(rd, left[..0], right[..0], None, None) && IsMaxRelative(rd, left[..0], right[..0], None)
    ensures Errors(rd, left[..0], right[..0]) == [] && Sum([]) == 0.0 && SumOfSquares([]) == 0.0
    ensures forall test :: Count(left[..0], right[..0], test) == 0
  {
  }

  // ----- What the counts and the means stand for

  /** A count is the number of positions that satisfy its test. */
  lemma {:induction false} CountIsPositions<E>(left: seq<E>, right: seq<E>, test: (E, E) -> bool)
    requires |left| == |right|
    ensures Count(left, right, test) == |set i: nat | i < |left| && test(left[i], right[i])|
  {
    var here := set i: nat | i < |left| && test(left[i], right[i]);
    if left == [] {
      assert here == {};
    } else {
      var n := |left| - 1;
      var l, r := left[..n], right[..n];
      CountIsPositions(l, r, test);
      var before := set i: nat | i < |l| && test(l[i], r[i]);
      forall i: nat
        ensures i in here <==> i in before || (i == n && test(left[n], right[n]))
      {
        assert i < n ==> l[i] == left[i] && r[i] == right[i];
      }
      assert here == before + if test(left[n], right[n]) then {n} else {};
    }
  }

  /** What each count of the evidence counts. */
  lemma EvidenceCounts<E>(rd: Reading<E>, left: seq<E>, right: seq<E>, ev: Evidence)
    requires |left| == |right| && Describes(rd, left, right, ev)
    ensures ev.exactCount == |set i: nat | i < |left| && left[i] == right[i]|
    ensures ev.leftNonfinite == |set i: nat | i < |left| && !rd.finite(left[i])|
    ensures ev.rightNonfinite == |set i: nat | i < |left| && !rd.finite(right[i])|
    ensures ev.nonfiniteMismatch ==
      |set i: nat | i < |left| && (!rd.finite(left[i]) || !rd.finite(right[i])) && left[i] != right[i]|
    ensures ev.relativeCount ==
      |set i: nat | i < |left| && rd.finite(left[i]) && rd.finite(right[i]) && rd.value(left[i]) != 0.0|
  {
    hide IsWorst, IsMaxRelative, Errors, Count, Mean, MeanSquare;
    CountsAt(left, right, SameBits(), set i: nat | i < |left| && left[i] == right[i]);
    CountsAt(left, right, LeftNonfinite(rd), set i: nat | i < |left| && !rd.finite(left[i]));
    CountsAt(left, right, RightNonfinite(rd), set i: nat | i < |left| && !rd.finite(right[i]));
    CountsAt(left, right, NonfiniteMismatch(rd),
      set i: nat | i < |left| && (!rd.finite(left[i]) || !rd.finite(right[i])) && left[i] != right[i]);
    CountsAt(left, right, HasRelativeError(rd),
      set i: nat | i < |left| && rd.finite(left[i]) && rd.finite(right[i]) && rd.value(left[i]) != 0.0);
  }

  lemma CountsAt<E>(left: seq<E>, right: seq<E>, test: (E, E) -> bool, at: set<nat>)
    requires |left| == |right| && forall i: nat :: i in at <==> i < |left| && test(left[i], right[i])
    ensures Count(left, right, test) == |at|
  {
    CountIsPositions(left, right, test);
    assert at == set i: nat | i < |left| && test(left[i], right[i]);
  }

  /** The relative error is the error in units of the left value. */
  lemma RelativeToLeft<E>(rd: Reading<E>, l: E, r: E)
    requires HasRelative(rd, l, r)
    ensures rd.value(l) != 0.0 && RelError(rd, l, r) * Abs(rd.value(l)) == AbsError(rd, l, r)
  {
    var e, a := AbsError(rd, l, r), Abs(rd.value(l));
    assert e / a * a == e;
  }

  function BothFinite<E>(rd: Reading<E>): (E, E) -> bool { (l, r) => FinitePair(rd, l, r) }

  lemma {:induction false} ErrorsConcat<E>(rd: Reading<E>, left: seq<E>, right: seq<E>, left': seq<E>, right': seq<E>)
    requires |left| == |right| && |left'| == |right'|
    ensures Errors(rd, left + left', right + right') == Errors(rd, left, right) + Errors(rd, left', right')
    decreases |left'|
  {
    hide FinitePair, AbsError;
    if left' == [] {
      assert left + left' == left && right + right' == right;
    } else {
      var n := |left'| - 1;
      ErrorsConcat(rd, left, right, left'[..n], right'[..n]);
      assert (left + left')[..|left| + n] == left + left'[..n] && (right + right')[..|left| + n] == right + right'[..n];
    }
  }

  lemma {:induction false} ErrorsCounted<E>(rd: Reading<E>, left: seq<E>, right: seq<E>)
    requires |left| == |right|
    ensures |Errors(rd, left, right)| == Count(left, right, BothFinite(rd))
  {
    hide FinitePair, AbsError;
    if left != [] {
      ErrorsCounted(rd, left[..|left| - 1], right[..|right| - 1]);
    }
  }

  lemma {:induction false} SumConcat(a: seq<real>, b: seq<real>)
    ensures Sum(a + b) == Sum(a) + Sum(b) && SumOfSquares(a + b) == SumOfSquares(a) + SumOfSquares(b)
  {
    if b == [] {
      assert a + b == a;
    } else {
      SumConcat(a, b[..|b| - 1]);
      assert (a + b)[..|a + b| - 1] == a + b[..|b| - 1];
    }
  }

  /** A mean over `n` values, times `n`. */
  function Total(mean: Option<real>, n: nat): real { if mean.Some? then mean.value * n as real else 0.0 }

  /** The evidence of one pair, if it is finite: its error and the square of its error. */
  lemma MeansOfOne<E>(rd: Reading<E>, l: E, r: E, ev: Evidence)
    requires Describes(rd, [l], [r], ev)
    ensures var e := AbsError(rd, l, r);
      && ev.meanAbsolute == (if FinitePair(rd, l, r) then Some(e) else None)
      && ev.meanSquare == (if FinitePair(rd, l, r) then Some(e * e) else None)
  {
    ErrorsOfOne(rd, l, r);
    SumsOfOne(AbsError(rd, l, r));
    hide IsWorst, IsMaxRelative, Count, Errors, AbsError, Sum, SumOfSquares, FinitePair;
  }

  lemma ErrorsOfOne<E>(rd: Reading<E>, l: E, r: E)
    ensures Errors(rd, [l], [r]) == if FinitePair(rd, l, r) then [AbsError(rd, l, r)] else []
  {
    hide FinitePair, AbsError;
    assert [l][..0] == [] && [r][..0] == [];
  }

  lemma SumsOfOne(e: real)
    ensures Sum([e]) == e && SumOfSquares([e]) == e * e
  {
    assert [e][..0] == [];
  }

  /** Means add up: weighed by the numbers of finite pairs, those of two stretches make that of the whole. */
  lemma MeansAddUp<E>(rd: Reading<E>, left: seq<E>, right: seq<E>, n: nat, ev: Evidence, ev': Evidence, all: Evidence)
    requires |left| == |right| && n <= |left|
    requires Describes(rd, left[..n], right[..n], ev) && Describes(rd, left[n..], right[n..], ev')
    requires Describes(rd, left, right, all)
    ensures var a, b := Count(left[..n], right[..n], BothFinite(rd)), Count(left[n..], right[n..], BothFinite(rd));
      && Total(all.meanAbsolute, a + b) == Total(ev.meanAbsolute, a) + Total(ev'.meanAbsolute, b)
      && Total(all.meanSquare, a + b) == Total(ev.meanSquare, a) + Total(ev'.meanSquare, b)
  {
    hide *;
    var l, r, l', r' := left[..n], right[..n], left[n..], right[n..];
    var es, es' := Errors(rd, l, r), Errors(rd, l', r');
    assert Errors(rd, left, right) == es + es' by {
      ErrorsConcat(rd, l, r, l', r');
      assert left == l + l' && right == r + r';
    }
    ErrorsCounted(rd, l, r);
    ErrorsCounted(rd, l', r');
    SumConcat(es, es');
    TotalIs(rd, l, r, ev);
    TotalIs(rd, l', r', ev');
    TotalIs(rd, left, right, all);
  }

  lemma TotalIs<E>(rd: Reading<E>, left: seq<E>, right: seq<E>, ev: Evidence)
    requires |left| == |right| && Describes(rd, left, right, ev)
    ensures var es := Errors(rd, left, right);
      Total(ev.meanAbsolute, |es|) == Sum(es) && Total(ev.meanSquare, |es|) == SumOfSquares(es)
  {
    hide IsWorst, IsMaxRelative, Count, Errors;
    var es := Errors(rd, left, right);
    if es != [] {
      Rescale(Sum(es), |es|);
      Rescale(SumOfSquares(es), |es|);
    }
  }

  lemma Rescale(x: real, n: nat)
    requires n > 0
    ensures x / n as real * n as real == x
  {
  }

  // ----- Mean, RMS and maximum

  lemma Scale(n: real, a: real, sum: real, squares: real)
    requires n >= 1.0 && sum * sum <= n * squares
    ensures 2.0 * sum * a <= n * a * a + squares
  {
    var d := n * a - sum;
    assert d * d == n * n * a * a - 2.0 * n * sum * a + sum * sum;
    var gap := n * a * a + squares - 2.0 * sum * a;
    assert n * gap == n * n * a * a + n * squares - 2.0 * n * sum * a;
    assert n * gap >= d * d >= 0.0;
  }

  /** The square of a sum is at most the number of terms times the sum of squares. */
  lemma {:induction false} SquareOfSum(es: seq<real>)
    ensures Sum(es) * Sum(es) <= |es| as real * SumOfSquares(es)
  {
    if |es| == 1 {
      assert es[..0] == [];
    } else if |es| > 1 {
      var front, a := es[..|es| - 1], es[|es| - 1];
      SquareOfSum(front);
      var n, s, q := |front| as real, Sum(front), SumOfSquares(front);
      Scale(n, a, s, q);
      assert (s + a) * (s + a) == s * s + 2.0 * s * a + a * a;
      assert (n + 1.0) * (q + a * a) == n * q + n * a * a + q + a * a;
      assert |es| as real == n + 1.0;
    }
  }

  lemma SquaresOrder(a: real, b: real)
    requires 0.0 <= a <= b
    ensures a * a <= b * b && (a < b ==> a * a < b * b)
  {
    var d, s := b - a, b + a;
    assert b * b - a * a == d * s;
    assert a < b ==> d * s > 0.0;
  }

  lemma {:induction false} SumsBelowMax(es: seq<real>, largest: real)
    requires forall i :: 0 <= i < |es| ==> 0.0 <= es[i] <= largest
    ensures 0.0 <= Sum(es) && SumOfSquares(es) <= |es| as real * (largest * largest)
  {
    if es != [] {
      var front, a := es[..|es| - 1], es[|es| - 1];
      SumsBelowMax(front, largest);
      SquaresOrder(a, largest);
      var n, m := |front| as real, largest * largest;
      assert |es| as real == n + 1.0;
      assert (n + 1.0) * m == n * m + m;
    }
  }

  /** Every error in the list is some finite pair's, so none exceeds the reported maximum. */
  lemma {:induction false} ErrorsBelowWorst<E>(rd: Reading<E>, left: seq<E>, right: seq<E>, bound: real)
    requires |left| == |right|
    requires forall i :: 0 <= i < |left| && FinitePair(rd, left[i], right[i]) ==> AbsError(rd, left[i], right[i]) <= bound
    ensures forall i :: 0 <= i < |Errors(rd, left, right)| ==> Errors(rd, left, right)[i] <= bound
    ensures Errors(rd, left, right) == [] <==> forall i :: 0 <= i < |left| ==> !FinitePair(rd, left[i], right[i])
  {
    if left != [] {
      var n := |left| - 1;
      ErrorsBelowWorst(rd, left[..n], right[..n], bound);
    }
  }

  lemma DivideSquares(n: real, sum: real, squares: real, m: real)
    requires n >= 1.0 && sum * sum <= n * squares && squares <= n * m
    ensures (sum / n) * (sum / n) <= squares / n <= m
  {
    var mean := sum / n;
    assert sum == mean * n;
    assert n * (mean * mean * n) == sum * sum;
    assert mean * mean * n <= squares;
  }

  lemma MeansOrdered(es: seq<real>, largest: real)
    requires es != [] && forall i :: 0 <= i < |es| ==> 0.0 <= es[i] <= largest
    ensures 0.0 <= Mean(es) && Mean(es) * Mean(es) <= MeanSquare(es) <= largest * largest
  {
    hide Sum, SumOfSquares;
    SquareOfSum(es);
    SumsBelowMax(es, largest);
    DivideSquares(|es| as real, Sum(es), SumOfSquares(es), largest * largest);
  }

  /** Mean error, RMS error and maximum error are ordered: in squares, mean^2 <= rms^2 <= max^2, with all
      three present exactly when some pair is finite. */
  lemma MeanRmsMax<E>(rd: Reading<E>, left: seq<E>, right: seq<E>, ev: Evidence)
    requires |left| == |right| && Describes(rd, left, right, ev)
    ensures ev.meanAbsolute.Some? == ev.meanSquare.Some? == ev.maxAbsolute.Some? == ev.worstIndex.Some?
    ensures ev.maxAbsolute.Some? ==>
      && ev.meanAbsolute.value * ev.meanAbsolute.value <= ev.meanSquare.value <= ev.maxAbsolute.value * ev.maxAbsolute.value
      && 0.0 <= ev.meanAbsolute.value
  {
    hide Errors, Mean, MeanSquare, Count, IsMaxRelative, FinitePair, AbsError;
    var es := Errors(rd, left, right);
    ErrorsBelowWorst(rd, left, right, if ev.maxAbsolute.Some? then ev.maxAbsolute.value else 0.0);
    if ev.maxAbsolute.Some? {
      MeansOrdered(es, ev.maxAbsolute.value);
    }
  }

  /** For any square root of the mean square, mean <= RMS <= maximum. */
  lemma RootOrder(mean: real, rms: real, largest: real)
    requires 0.0 <= mean && 0.0 <= rms && 0.0 <= largest && mean * mean <= rms * rms <= largest * largest
    ensures mean <= rms <= largest
  {
    if mean > rms {
      SquaresOrder(rms, mean);
    }
    if rms > largest {
      SquaresOrder(largest, rms);
    }
  }
}
