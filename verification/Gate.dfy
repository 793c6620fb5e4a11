/**
 The MoE gate: group-limited top-k expert selection by streaming insertion, and the mixing weights.
 The gate logits after `score` are an input. Scores are compared as bit patterns; adding two scores
 and reading a score as a number are parameters (`GateOps`), and the weights are exact reals.
 */
module Gate {
  import opened Options
  import opened Floats
  import opened Ranking
  import opened Arithmetic
  import opened Sequences

  /** A weight in exact arithmetic, or an infinity or NaN. */
  datatype Weight = Fin(v: real) | NonFinite

  datatype GateOps = GateOps(add: (F32, F32) -> F32, value: F32 -> Weight)

  datatype LinearGate = LinearGate(
    numExperts: nat,
    topK: nat,
    normaliseTopK: bool,
    correctionBias: Option<seq<F32>>,
    nGroup: nat,
    topkGroup: nat,
    routedScalingFactor: Weight)
  {
    /** What the constructors assert; expert ids are `u32`. */
    predicate Valid() {
      && 0 < topK <= numExperts <= 0x1_0000_0000
      && (correctionBias.Some? ==> |correctionBias.value| == numExperts)
    }

    /** `(groups, group size)` when group filtering applies. */
    function GroupFilterShape(): (shape: Option<(nat, nat)>)
      ensures shape.Some? <==> 1 < nGroup && 0 < topkGroup < nGroup && numExperts % nGroup == 0
      ensures shape.Some? ==> shape.value.0 == nGroup && nGroup * shape.value.1 == numExperts
    {
      var n := if nGroup < 1 then 1 else nGroup;
      if n <= 1 || topkGroup == 0 || topkGroup >= n || numExperts % n != 0 then None
      else Some((n, numExperts / n))
    }
  }

  datatype RoutingDecision = RoutingDecision(experts: seq<nat>, weights: seq<Weight>)

  class RoutingScratch {
    var logits: seq<F32>
    var selection: seq<F32>
    var topGroups: seq<Candidate>
    var topExperts: seq<Candidate>
    var decisionExperts: seq<nat>
    var decisionWeights: seq<Weight>
  }

  // ----- Group scores

  /** One step of the scan for the two best selection scores of a group. */
  function TopTwoStep(best: (F32, F32), s: F32): (F32, F32) {
    if Gt(s, best.0) then (s, best.0) else if Gt(s, best.1) then (best.0, s) else best
  }

  function TopTwo(scores: seq<F32>): (F32, F32) {
    if scores == [] then (NEG_INF, NEG_INF) else TopTwoStep(TopTwo(scores[..|scores| - 1]), scores[|scores| - 1])
  }

  /** The scan finds the two largest scores of a group: nothing exceeds the first, at most one
      position exceeds the second, and both occur, at different positions, unless they are still the
      starting value. */
  lemma {:induction false} TopTwoAreLargest(scores: seq<F32>)
    ensures var (a, b) := TopTwo(scores);
      && !IsNan(a) && !IsNan(b) && !Gt(b, a)
      && (forall i :: 0 <= i < |scores| ==> !Gt(scores[i], a))
      && (forall i, j :: 0 <= i < j < |scores| ==> !Gt(scores[i], b) || !Gt(scores[j], b))
      && (a == NEG_INF || exists i :: 0 <= i < |scores| && scores[i] == a)
      && (b == NEG_INF || exists i, j :: 0 <= i < |scores| && 0 <= j < |scores| && i != j && scores[i] == a && scores[j] == b)
  {
    if scores != [] {
      var front, s := scores[..|scores| - 1], scores[|scores| - 1];
      TopTwoAreLargest(front);
      var (a, b) := TopTwo(front);
      if a != NEG_INF {
        var i :| 0 <= i < |front| && front[i] == a;
        assert scores[i] == a;
      }
      if b != NEG_INF {
        var i, j :| 0 <= i < |front| && 0 <= j < |front| && i != j && front[i] == a && front[j] == b;
        assert scores[i] == a && scores[j] == b;
      }
      assert forall i :: 0 <= i < |front| ==> scores[i] == front[i];
      var (a', b') := TopTwo(scores);
      forall i, j | 0 <= i < j < |scores|
        ensures !Gt(scores[i], b') || !Gt(scores[j], b')
      {
        assert scores[i] == front[i];
        if j < |front| {
          assert !Gt(front[i], b) || !Gt(front[j], b);
        }
      }
    }
  }

  function GroupScore(scores: seq<F32>, add: (F32, F32) -> F32): F32 {
    var (top1, top2) := TopTwo(scores);
    add(top1, if IsFinite(top2) then top2 else POS_ZERO)
  }

  /** No score is larger than `s[i]`, except at the places `others`; scores as large have the same bits. */
  ghost predicate Tops(s: seq<F32>, i: nat, others: set<nat>)
    requires i < |s|
  {
    s[i] > NEG_INF && !IsNan(s[i])
    && forall k :: 0 <= k < |s| && k != i && k !in others ==> s[k] == s[i] || Gt(s[i], s[k]) || IsNan(s[k])
  }

  /** The score of a group with two scores above negative infinity: the best plus the second best, or plus zero
      when the second best is infinite. */
  lemma GroupScoreIs(s: seq<F32>, add: (F32, F32) -> F32, i: nat, j: nat)
    requires i < |s| && j < |s| && i != j && Tops(s, i, {}) && Tops(s, j, {i})
    ensures GroupScore(s, add) == add(s[i], if s[j] == POS_INF then POS_ZERO else s[j])
  {
    hide TopTwo;
    TopTwoAreLargest(s);
    var (a, b) := TopTwo(s);
    assert Gt(s[i], NEG_INF) && Gt(s[j], NEG_INF);
    assert a == s[i];
    assert b != NEG_INF by {
      var p, q := if i < j then i else j, if i < j then j else i;
      assert !Gt(s[p], b) || !Gt(s[q], b);
    }
    var p, q :| 0 <= p < |s| && 0 <= q < |s| && p != q && s[p] == a && s[q] == b;
  }

  /** The score of a group with one score above negative infinity. */
  lemma GroupScoreAlone(s: seq<F32>, add: (F32, F32) -> F32, i: nat)
    requires i < |s| && s[i] > NEG_INF && !IsNan(s[i])
    requires forall k :: 0 <= k < |s| && k != i ==> s[k] == NEG_INF || IsNan(s[k])
    ensures GroupScore(s, add) == add(s[i], POS_ZERO)
  {
    hide TopTwo;
    TopTwoAreLargest(s);
    assert Gt(s[i], NEG_INF);
  }

  lemma GroupFits(g: nat, groups: nat, size: nat)
    requires g < groups
    ensures g * size <= (g + 1) * size <= groups * size
  {
  }

  /** The groups as candidates, in id order. */
  function GroupCandidates(selection: seq<F32>, n: nat, size: nat, add: (F32, F32) -> F32): (cs: seq<Candidate>)
    requires n * size <= |selection|
  {
    if n == 0 then [] else
      GroupFits(n - 1, n, size);
      GroupCandidates(selection, n - 1, size, add)
        + [Candidate(n - 1, GroupScore(selection[(n - 1) * size..n * size], add))]
  }

  method ScanTopTwo(slice: seq<F32>) returns (top1: F32, top2: F32)
    ensures (top1, top2) == TopTwo(slice)
  {
    top1, top2 := NEG_INF, NEG_INF;
    for i := 0 to |slice|
      invariant (top1, top2) == TopTwo(slice[..i])
    {
      assert slice[..i + 1][..i] == slice[..i];
      var s := slice[i];
      if Gt(s, top1) {
        top2 := top1;
        top1 := s;
      } else if Gt(s, top2) {
        top2 := s;
      }
    }
    assert slice[..|slice|] == slice;
  }

  /** One more group enters the bounded list. */
  lemma GroupStep(selection: seq<F32>, g: nat, size: nat, add: (F32, F32) -> F32, k: nat)
    requires g * size <= |selection| && (g + 1) * size <= |selection| && g * size <= (g + 1) * size
    ensures TopK(GroupCandidates(selection, g + 1, size, add), k)
         == Take(Insert(TopK(GroupCandidates(selection, g, size, add), k),
                        Candidate(g, GroupScore(selection[g * size..(g + 1) * size], add))), k)
  {
    var before, after := GroupCandidates(selection, g, size, add), GroupCandidates(selection, g + 1, size, add);
    var c := Candidate(g, GroupScore(selection[g * size..(g + 1) * size], add));
    assert after == before + [c];
    assert after[..|after| - 1] == before;
    CutThenInsert(Sort(before), c, k);
  }

  method SelectTopGroups(gate: LinearGate, selection: seq<F32>, add: (F32, F32) -> F32)
    returns (groups: seq<Candidate>, groupSize: Option<nat>)
    requires |selection| == gate.numExperts
    ensures groups == SelectedGroups(gate, selection, add)
    ensures groupSize == if gate.GroupFilterShape().Some? then Some(gate.GroupFilterShape().value.1) else None
  {
    groups := [];
    var shape := gate.GroupFilterShape();
    if shape.None? {
      return [], None;
    }
    var (n, size) := shape.value;
    assert TopK(GroupCandidates(selection, 0, size, add), gate.topkGroup) == [];
    hide GroupCandidates, Sort, Insert, TopTwo;
    for g := 0 to n
      invariant g * size <= |selection|
      invariant groups == TopK(GroupCandidates(selection, g, size, add), gate.topkGroup)
    {
      GroupFits(g, n, size);
      GroupStep(selection, g, size, add, gate.topkGroup);
      var top1, top2 := ScanTopTwo(selection[g * size..(g + 1) * size]);
      var sum := add(top1, if IsFinite(top2) then top2 else POS_ZERO);
      groups := InsertBounded(groups, gate.topkGroup, Candidate(g, sum));
    }
    groupSize := Some(size);
  }

  /** The groups that survive pre-selection: sort the groups, take `topk_group`. */
  function SelectedGroups(gate: LinearGate, selection: seq<F32>, add: (F32, F32) -> F32): seq<Candidate>
    requires |selection| == gate.numExperts
  {
    var shape := gate.GroupFilterShape();
    if shape.None? then [] else TopK(GroupCandidates(selection, shape.value.0, shape.value.1, add), gate.topkGroup)
  }

  // ----- Expert selection

  /** `selection = score + bias`, used to choose and never to weigh. */
  function Selection(gate: LinearGate, scores: seq<F32>, add: (F32, F32) -> F32): (s: seq<F32>)
    requires gate.Valid() && |scores| == gate.numExperts
    ensures |s| == |scores|
  {
    if gate.correctionBias.None? then scores
    else seq(|scores|, i requires 0 <= i < |scores| => add(scores[i], gate.correctionBias.value[i]))
  }

  predicate GroupIn(group: nat, groups: seq<Candidate>) {
    exists i :: 0 <= i < |groups| && groups[i].id == group
  }

  predicate Allowed(expert: nat, groupSize: Option<nat>, groups: seq<Candidate>)
    requires groupSize.Some? ==> groupSize.value > 0
  {
    groupSize.Some? ==> GroupIn(expert / groupSize.value, groups)
  }

  function GroupSize(gate: LinearGate): (s: Option<nat>)
    requires gate.Valid()
    ensures s.Some? ==> s.value > 0
  {
    var shape := gate.GroupFilterShape();
    if shape.None? then None else Some(shape.value.1)
  }

  /** The experts the streaming loop inserts among the first `n`: allowed and finite. */
  function Eligible(selection: seq<F32>, n: nat, groupSize: Option<nat>, groups: seq<Candidate>): seq<Candidate>
    requires n <= |selection| && (groupSize.Some? ==> groupSize.value > 0)
  {
    if n == 0 then []
    else
      var rest := Eligible(selection, n - 1, groupSize, groups);
      if Allowed(n - 1, groupSize, groups) && IsFinite(selection[n - 1])
      then rest + [Candidate(n - 1, selection[n - 1])] else rest
  }

  // ----- Weights

  function Sum(ws: seq<Weight>): Weight {
    if ws == [] then Fin(0.0)
    else
      var rest, last := Sum(ws[..|ws| - 1]), ws[|ws| - 1];
      if rest.Fin? && last.Fin? then Fin(rest.v + last.v) else NonFinite
  }

  function DivideBy(w: Weight, sum: real): Weight
    requires sum > 0.0
  {
    if w.Fin? then Fin(w.v / sum) else NonFinite
  }

  function ScaleBy(w: Weight, factor: real): Weight {
    if w.Fin? then Fin(w.v * factor) else NonFinite
  }

  function Normalised(ws: seq<Weight>): (r: seq<Weight>)
    ensures |r| == |ws|
  {
    var sum := Sum(ws);
    if sum.Fin? && sum.v > 0.0 then seq(|ws|, i requires 0 <= i < |ws| => DivideBy(ws[i], sum.v)) else ws
  }

  function Scaled(ws: seq<Weight>, factor: Weight): (r: seq<Weight>)
    ensures |r| == |ws|
  {
    if factor != Fin(1.0) && factor.Fin? then seq(|ws|, i requires 0 <= i < |ws| => ScaleBy(ws[i], factor.v)) else ws
  }

  /** The mixing weights of the chosen experts, from their unbiased scores alone. */
  function MixingWeights(gate: LinearGate, scores: seq<F32>, experts: seq<nat>, value: F32 -> Weight): seq<Weight>
    requires forall i :: 0 <= i < |experts| ==> experts[i] < |scores|
  {
    var raw := seq(|experts|, i requires 0 <= i < |experts| => value(scores[experts[i]]));
    Scaled(if gate.normaliseTopK then Normalised(raw) else raw, gate.routedScalingFactor)
  }

  lemma {:induction false} SumOfScaled(ws: seq<Weight>, factor: real)
    requires Sum(ws).Fin?
    ensures Sum(seq(|ws|, i requires 0 <= i < |ws| => ScaleBy(ws[i], factor))) == Fin(Sum(ws).v * factor)
  {
    var scaled := seq(|ws|, i requires 0 <= i < |ws| => ScaleBy(ws[i], factor));
    if ws != [] {
      var n := |ws| - 1;
      SumOfScaled(ws[..n], factor);
      assert scaled[..n] == seq(n, i requires 0 <= i < n => ScaleBy(ws[..n][i], factor));
    }
  }

  lemma {:induction false} SumOfDivided(ws: seq<Weight>, d: real)
    requires Sum(ws).Fin? && d > 0.0
    ensures Sum(seq(|ws|, i requires 0 <= i < |ws| => DivideBy(ws[i], d))) == Fin(Sum(ws).v / d)
  {
    var divided := seq(|ws|, i requires 0 <= i < |ws| => DivideBy(ws[i], d));
    if ws != [] {
      var n := |ws| - 1;
      SumOfDivided(ws[..n], d);
      assert divided[..n] == seq(n, i requires 0 <= i < n => DivideBy(ws[..n][i], d));
      assert Sum(ws[..n]).v / d + ws[n].v / d == (Sum(ws[..n]).v + ws[n].v) / d;
    }
  }

  lemma DivideBySelf(s: real)
    requires s > 0.0
    ensures s / s == 1.0
  {
  }

  /** With normalisation on and a positive sum, the final weights sum to the scaling factor (to one
      when the factor is not finite, since it is then ignored). */
  lemma WeightsSumToFactor(gate: LinearGate, raw: seq<Weight>)
    requires Sum(raw).Fin? && Sum(raw).v > 0.0
    ensures Sum(Scaled(Normalised(raw), gate.routedScalingFactor))
         == if gate.routedScalingFactor.Fin? then gate.routedScalingFactor else Fin(1.0)
  {
    hide Sum;
    var s := Sum(raw).v;
    SumOfDivided(raw, s);
    assert Normalised(raw) == seq(|raw|, i requires 0 <= i < |raw| => DivideBy(raw[i], s));
    DivideBySelf(s);
    if gate.routedScalingFactor.Fin? {
      var f := gate.routedScalingFactor.v;
      SumOfScaled(Normalised(raw), f);
      assert 1.0 * f == f;
    }
  }

  // ----- The reference: mask, sort stably, drop what is not finite, truncate

  function FiniteOnly(cs: seq<Candidate>): seq<Candidate> {
    if cs == [] then []
    else FiniteOnly(cs[..|cs| - 1]) + (if IsFinite(cs[|cs| - 1].score) then [cs[|cs| - 1]] else [])
  }

  /** Every expert, the ones outside the surviving groups at negative infinity. */
  function Masked(selection: seq<F32>, n: nat, groupSize: Option<nat>, groups: seq<Candidate>): seq<Candidate>
    requires n <= |selection| && (groupSize.Some? ==> groupSize.value > 0)
  {
    if n == 0 then []
    else
      var score := if Allowed(n - 1, groupSize, groups) then selection[n - 1] else NEG_INF;
      Masked(selection, n - 1, groupSize, groups) + [Candidate(n - 1, score)]
  }

  function Ids(cs: seq<Candidate>): (ids: seq<nat>)
    ensures |ids| == |cs|
  {
    seq(|cs|, i requires 0 <= i < |cs| => cs[i].id)
  }

  /** The experts the reference chooses, best first. */
  function ReferenceExperts(gate: LinearGate, scores: seq<F32>, add: (F32, F32) -> F32): seq<nat>
    requires gate.Valid() && |scores| == gate.numExperts
  {
    var selection := Selection(gate, scores, add);
    var groups := SelectedGroups(gate, selection, add);
    Ids(Take(FiniteOnly(Sort(Masked(selection, gate.numExperts, GroupSize(gate), groups))), gate.topK))
  }

  lemma {:induction false} FiniteCount(cs: seq<Candidate>, c: Candidate)
    ensures multiset(FiniteOnly(cs))[c] == if IsFinite(c.score) then multiset(cs)[c] else 0
  {
    if cs != [] {
      FiniteCount(cs[..|cs| - 1], c);
      assert cs == cs[..|cs| - 1] + [cs[|cs| - 1]];
    }
  }

  lemma {:induction false} FiniteKeepsRank(cs: seq<Candidate>)
    requires Ranked(cs)
    ensures Ranked(FiniteOnly(cs))
    ensures forall i :: 0 <= i < |FiniteOnly(cs)| ==> FiniteOnly(cs)[i] in cs
  {
    if cs != [] {
      var front, last := cs[..|cs| - 1], cs[|cs| - 1];
      FiniteKeepsRank(front);
      forall c | c in front
        ensures !Better(last, c)
      {
        var i :| 0 <= i < |front| && front[i] == c;
        assert cs[i] == c;
      }
    }
  }

  /** Dropping non-finite scores commutes with sorting. */
  lemma FilterThenSort(cs: seq<Candidate>)
    ensures FiniteOnly(Sort(cs)) == Sort(FiniteOnly(cs))
  {
    var a, b := FiniteOnly(Sort(cs)), Sort(FiniteOnly(cs));
    SortIsRanked(cs);
    FiniteKeepsRank(Sort(cs));
    SortIsRanked(FiniteOnly(cs));
    SortIsPermutation(cs);
    SortIsPermutation(FiniteOnly(cs));
    forall c
      ensures multiset(a)[c] == multiset(b)[c]
    {
      FiniteCount(cs, c);
      FiniteCount(Sort(cs), c);
    }
    RankingIsUnique(a, b);
  }

  /** Masking to negative infinity and dropping it later is skipping the expert. */
  lemma {:induction false} MaskedIsEligible(selection: seq<F32>, n: nat, groupSize: Option<nat>, groups: seq<Candidate>)
    requires n <= |selection| && (groupSize.Some? ==> groupSize.value > 0)
    ensures FiniteOnly(Masked(selection, n, groupSize, groups)) == Eligible(selection, n, groupSize, groups)
  {
    if n > 0 {
      MaskedIsEligible(selection, n - 1, groupSize, groups);
      var m := Masked(selection, n, groupSize, groups);
      assert m[..|m| - 1] == Masked(selection, n - 1, groupSize, groups);
    }
  }

  /** The streaming selection is the reference selection. */
  lemma StreamingIsReference(gate: LinearGate, scores: seq<F32>, add: (F32, F32) -> F32)
    requires gate.Valid() && |scores| == gate.numExperts
    ensures var selection := Selection(gate, scores, add);
      var groups := SelectedGroups(gate, selection, add);
      Ids(TopK(Eligible(selection, gate.numExperts, GroupSize(gate), groups), gate.topK))
        == ReferenceExperts(gate, scores, add)
  {
    var selection := Selection(gate, scores, add);
    var groups := SelectedGroups(gate, selection, add);
    FilterThenSort(Masked(selection, gate.numExperts, GroupSize(gate), groups));
    MaskedIsEligible(selection, gate.numExperts, GroupSize(gate), groups);
  }

  lemma {:induction false} EligibleAre(selection: seq<F32>, n: nat, groupSize: Option<nat>, groups: seq<Candidate>)
    requires n <= |selection| && (groupSize.Some? ==> groupSize.value > 0)
    ensures forall i :: 0 <= i < |Eligible(selection, n, groupSize, groups)| ==>
      Eligible(selection, n, groupSize, groups)[i].id < n
  {
    if n > 0 {
      EligibleAre(selection, n - 1, groupSize, groups);
    }
  }

  /** The chosen ids are experts, so their scores can be looked up. */
  lemma ChosenExist(gate: LinearGate, scores: seq<F32>, add: (F32, F32) -> F32)
    requires gate.Valid() && |scores| == gate.numExperts
    ensures forall i :: 0 <= i < |ReferenceExperts(gate, scores, add)| ==> ReferenceExperts(gate, scores, add)[i] < |scores|
  {
    var selection := Selection(gate, scores, add);
    var groups := SelectedGroups(gate, selection, add);
    var cs := Eligible(selection, gate.numExperts, GroupSize(gate), groups);
    StreamingIsReference(gate, scores, add);
    EligibleAre(selection, gate.numExperts, GroupSize(gate), groups);
    SortIsPermutation(cs);
    var top := TopK(cs, gate.topK);
    forall i | 0 <= i < |top|
      ensures top[i].id < |scores|
    {
      assert Sort(cs)[i] in multiset(cs);
    }
  }

  /** The reference decision: experts by masked sort, weights from the unbiased scores. */
  function ReferenceRoute(gate: LinearGate, scores: seq<F32>, arith: GateOps): RoutingDecision
    requires gate.Valid() && |scores| == gate.numExperts
  {
    ChosenExist(gate, scores, arith.add);
    var experts := ReferenceExperts(gate, scores, arith.add);
    RoutingDecision(experts, MixingWeights(gate, scores, experts, arith.value))
  }

  // ----- route_with_scratch

  /** One more expert: inserted when allowed and finite, passed over otherwise. */
  lemma EligibleStep(selection: seq<F32>, expert: nat, groupSize: Option<nat>, groups: seq<Candidate>, k: nat)
    requires expert < |selection| && (groupSize.Some? ==> groupSize.value > 0)
    ensures var before, after := Eligible(selection, expert, groupSize, groups), Eligible(selection, expert + 1, groupSize, groups);
      TopK(after, k) == if Allowed(expert, groupSize, groups) && IsFinite(selection[expert])
                        then Take(Insert(TopK(before, k), Candidate(expert, selection[expert])), k)
                        else TopK(before, k)
  {
    var before, c := Eligible(selection, expert, groupSize, groups), Candidate(expert, selection[expert]);
    CutThenInsert(Sort(before), c, k);
    assert (before + [c])[..|before|] == before;
  }

  method SelectExperts(gate: LinearGate, selection: seq<F32>, groupSize: Option<nat>, groups: seq<Candidate>)
    returns (top: seq<Candidate>)
    requires |selection| == gate.numExperts && (groupSize.Some? ==> groupSize.value > 0)
    ensures top == TopK(Eligible(selection, gate.numExperts, groupSize, groups), gate.topK)
  {
    top := [];
    assert TopK(Eligible(selection, 0, groupSize, groups), gate.topK) == [];
    hide Eligible, Sort, Insert, Allowed;
    for expert := 0 to gate.numExperts
      invariant top == TopK(Eligible(selection, expert, groupSize, groups), gate.topK)
    {
      EligibleStep(selection, expert, groupSize, groups, gate.topK);
      if !Allowed(expert, groupSize, groups) {
        continue;
      }
      if gate.topK == 0 || !IsFinite(selection[expert]) {
        continue;
      }
      top := InsertBounded(top, gate.topK, Candidate(expert, selection[expert]));
    }
  }

  method WeighExperts(gate: LinearGate, scores: seq<F32>, experts: seq<nat>, value: F32 -> Weight)
    returns (weights: seq<Weight>)
    requires forall i :: 0 <= i < |experts| ==> experts[i] < |scores|
    ensures weights == MixingWeights(gate, scores, experts, value)
  {
    ghost var raw := seq(|experts|, i requires 0 <= i < |experts| => value(scores[experts[i]]));
    weights := [];
    for i := 0 to |experts|
      invariant weights == raw[..i]
    {
      weights := weights + [value(scores[experts[i]])];
    }
    assert weights == raw;
    if gate.normaliseTopK {
      var sum := Sum(weights);
      if sum.Fin? && sum.v > 0.0 {
        for i := 0 to |weights|
          invariant |weights| == |raw|
          invariant forall j :: 0 <= j < |raw| ==> weights[j] == if j < i then DivideBy(raw[j], sum.v) else raw[j]
        {
          weights := weights[i := DivideBy(weights[i], sum.v)];
        }
        assert weights == Normalised(raw);
      }
    }
    ghost var unscaled := weights;
    if gate.routedScalingFactor != Fin(1.0) && gate.routedScalingFactor.Fin? {
      for i := 0 to |weights|
        invariant |weights| == |unscaled|
        invariant forall j :: 0 <= j < |unscaled| ==>
          weights[j] == if j < i then ScaleBy(unscaled[j], gate.routedScalingFactor.v) else unscaled[j]
      {
        weights := weights[i := ScaleBy(weights[i], gate.routedScalingFactor.v)];
      }
      assert weights == Scaled(unscaled, gate.routedScalingFactor);
    }
  }

  /** The routing decision through reusable scratch buffers is the reference decision. */
  method RouteWithScratch(gate: LinearGate, scores: seq<F32>, arith: GateOps, scratch: RoutingScratch)
    returns (decision: RoutingDecision)
    requires gate.Valid() && |scores| == gate.numExperts
    modifies scratch
    ensures decision == ReferenceRoute(gate, scores, arith)
    ensures scratch.logits == scores && scratch.selection == Selection(gate, scores, arith.add)
    ensures scratch.topGroups == SelectedGroups(gate, scratch.selection, arith.add)
    ensures Ids(scratch.topExperts) == decision.experts
    ensures scratch.decisionExperts == [] && scratch.decisionWeights == []
  {
    scratch.topGroups, scratch.topExperts := [], [];
    scratch.logits := scores;
    if gate.correctionBias.Some? {
      var selection := [];
      for i := 0 to |scores|
        invariant selection == Selection(gate, scores, arith.add)[..i]
      {
        selection := selection + [arith.add(scores[i], gate.correctionBias.value[i])];
      }
      scratch.selection := selection;
    } else {
      scratch.selection := scores;
    }
    assert scratch.selection == Selection(gate, scores, arith.add);
    var groups, groupSize := SelectTopGroups(gate, scratch.selection, arith.add);
    scratch.topGroups := groups;
    scratch.topExperts := SelectExperts(gate, scratch.selection, groupSize, groups);
    StreamingIsReference(gate, scores, arith.add);
    ChosenExist(gate, scores, arith.add);
    var experts := Ids(scratch.topExperts);
    var weights := WeighExperts(gate, scores, experts, arith.value);
    scratch.decisionExperts, scratch.decisionWeights := [], [];
    decision := RoutingDecision(experts, weights);
  }

  /** Fewer than `top_k` experts come back exactly when fewer than `top_k` are eligible. */
  lemma DecisionLength(gate: LinearGate, scores: seq<F32>, arith: GateOps)
    requires gate.Valid() && |scores| == gate.numExperts
    ensures var selection := Selection(gate, scores, arith.add);
      var eligible := Eligible(selection, gate.numExperts, GroupSize(gate), SelectedGroups(gate, selection, arith.add));
      |ReferenceRoute(gate, scores, arith).experts| == if |eligible| < gate.topK then |eligible| else gate.topK
  {
    StreamingIsReference(gate, scores, arith.add);
  }

  /** The correction bias chooses and never weighs: the weights are those that the gate without its bias gives
      to the chosen experts. */
  lemma BiasOnlySelects(gate: LinearGate, scores: seq<F32>, arith: GateOps)
    requires gate.Valid() && |scores| == gate.numExperts
    ensures var decision := ReferenceRoute(gate, scores, arith);
      && (forall i :: 0 <= i < |decision.experts| ==> decision.experts[i] < |scores|)
      && decision.weights == MixingWeights(gate.(correctionBias := None), scores, decision.experts, arith.value)
  {
    ChosenExist(gate, scores, arith.add);
  }

  /** The unnormalised weights of a decision: the unbiased scores of the chosen experts. */
  function ChosenScores(gate: LinearGate, scores: seq<F32>, arith: GateOps): seq<Weight>
    requires gate.Valid() && |scores| == gate.numExperts
  {
    ChosenExist(gate, scores, arith.add);
    var experts := ReferenceExperts(gate, scores, arith.add);
    seq(|experts|, i requires 0 <= i < |experts| => arith.value(scores[experts[i]]))
  }

  /** A routing decision of a normalising gate whose chosen scores have a positive sum mixes with weights that
      sum to the scaling factor (to one when the factor is not finite, since it is then ignored). */
  lemma DecisionSumsToFactor(gate: LinearGate, scores: seq<F32>, arith: GateOps)
    requires gate.Valid() && |scores| == gate.numExperts && gate.normaliseTopK
    requires Sum(ChosenScores(gate, scores, arith)).Fin? && Sum(ChosenScores(gate, scores, arith)).v > 0.0
    ensures Sum(ReferenceRoute(gate, scores, arith).weights)
         == if gate.routedScalingFactor.Fin? then gate.routedScalingFactor else Fin(1.0)
  {
    hide ReferenceExperts, Sum;
    WeightsSumToFactor(gate, ChosenScores(gate, scores, arith));
    assert ReferenceRoute(gate, scores, arith).weights
        == Scaled(Normalised(ChosenScores(gate, scores, arith)), gate.routedScalingFactor);
  }

  // ----- Which experts a decision holds, without the lists that compute it

  /** The score an expert is selected by. */
  function SelectedBy(gate: LinearGate, scores: seq<F32>, add: (F32, F32) -> F32, e: nat): F32
    requires gate.Valid() && |scores| == gate.numExperts && e < |scores|
  {
    if gate.correctionBias.None? then scores[e] else add(scores[e], gate.correctionBias.value[e])
  }

  /** The selection scores of group `g`. */
  function GroupOf(selection: seq<F32>, size: nat, g: nat): seq<F32> {
    if g * size + size <= |selection| then selection[g * size..g * size + size] else []
  }

  /** The groups with a larger score than group `g`, or as large a score and a smaller number. */
  ghost function GroupsAhead(selection: seq<F32>, n: nat, size: nat, add: (F32, F32) -> F32, g: nat): set<nat> {
    var score := GroupScore(GroupOf(selection, size, g), add);
    set h: nat | h < n && (GroupScore(GroupOf(selection, size, h), add) > score
                           || (GroupScore(GroupOf(selection, size, h), add) == score && h < g))
  }

  /** Fewer than `topkGroup` groups are ahead of group `g`. */
  ghost predicate Kept(gate: LinearGate, selection: seq<F32>, add: (F32, F32) -> F32, g: nat)
    requires gate.GroupFilterShape().Some?
  {
    var (n, size) := gate.GroupFilterShape().value;
    g < n && |GroupsAhead(selection, n, size, add, g)| < gate.topkGroup
  }

  /** The expert's selection score is finite, and its group is kept if groups are filtered at all. */
  ghost predicate Stays(gate: LinearGate, selection: seq<F32>, add: (F32, F32) -> F32, e: nat) {
    && e < |selection| && IsFinite(selection[e])
    && (gate.GroupFilterShape().Some? ==>
          var size := gate.GroupFilterShape().value.1;
          exists g: nat :: g * size <= e < g * size + size && Kept(gate, selection, add, g))
  }

  /** The experts that stay and have a larger selection score than `e`, or as large a one and a smaller id. */
  ghost function ExpertsAhead(gate: LinearGate, selection: seq<F32>, add: (F32, F32) -> F32, e: nat): set<nat>
    requires e < |selection|
  {
    set f: nat | f < |selection| && Stays(gate, selection, add, f)
                 && (selection[f] > selection[e] || (selection[f] == selection[e] && f < e))
  }

  lemma {:induction false} GroupCandidatesAre(selection: seq<F32>, n: nat, size: nat, add: (F32, F32) -> F32)
    requires n * size <= |selection|
    ensures var cs := GroupCandidates(selection, n, size, add);
      |cs| == n && forall g :: 0 <= g < n ==> cs[g] == Candidate(g, GroupScore(GroupOf(selection, size, g), add))
  {
    hide GroupScore;
    if n > 0 {
      GroupFits(n - 1, n, size);
      GroupCandidatesAre(selection, n - 1, size, add);
      assert (n - 1) * size + size == n * size;
    }
  }

  /** A group is in the bounded list exactly when it is kept. */
  lemma ListedIsKept(gate: LinearGate, selection: seq<F32>, add: (F32, F32) -> F32, g: nat)
    requires |selection| == gate.numExperts && gate.GroupFilterShape().Some? && g < gate.nGroup
    ensures GroupIn(g, SelectedGroups(gate, selection, add)) <==> Kept(gate, selection, add, g)
  {
    hide Sort, GroupScore, GroupOf, GroupCandidates;
    var (n, size) := gate.GroupFilterShape().value;
    var cs := GroupCandidates(selection, n, size, add);
    GroupCandidatesAre(selection, n, size, add);
    assert cs[g] in cs;
    TopKExactlyWhen(cs, gate.topkGroup, cs[g]);
    InTopK(cs, gate.topkGroup, cs[g]);
    var ahead := Ahead(cs, cs[g]);
    forall h | h in GroupsAhead(selection, n, size, add, g)
      ensures exists c :: c in ahead && c.id == h
    {
      assert cs[h] in ahead;
    }
    AsManyIds(GroupsAhead(selection, n, size, add, g), ahead);
  }

  /** Among candidates with distinct ids, an id is listed exactly when its candidate is. */
  lemma InTopK(cs: seq<Candidate>, k: nat, c: Candidate)
    requires c in cs && forall i, j :: 0 <= i < j < |cs| ==> cs[i].id != cs[j].id
    ensures GroupIn(c.id, TopK(cs, k)) <==> c in TopK(cs, k)
    ensures c.id in Ids(TopK(cs, k)) <==> c in TopK(cs, k)
  {
    hide Sort;
    SortIsPermutation(cs);
    SameElements(Sort(cs), cs);
    var top := TopK(cs, k);
    forall i | 0 <= i < |top| && top[i].id == c.id
      ensures top[i] == c
    {
      assert top[i] in Elements(Sort(cs));
    }
    if c in top {
      var i :| 0 <= i < |top| && top[i] == c;
      assert Ids(top)[i] == c.id;
    }
  }

  /** Being allowed by the bounded list of groups is lying in a kept group. */
  lemma AllowedStays(gate: LinearGate, selection: seq<F32>, add: (F32, F32) -> F32, e: nat)
    requires gate.Valid() && |selection| == gate.numExperts && e < |selection|
    ensures Stays(gate, selection, add, e) <==>
      Allowed(e, GroupSize(gate), SelectedGroups(gate, selection, add)) && IsFinite(selection[e])
  {
    hide SelectedGroups, Kept, IsFinite, LinearGate.GroupFilterShape;
    if gate.GroupFilterShape().Some? {
      var (n, size) := gate.GroupFilterShape().value;
      GroupNumber(e, n, size);
      ListedIsKept(gate, selection, add, e / size);
      forall h: nat | h * size <= e < h * size + size
        ensures h == e / size
      {
        OneGroup(e, size, h);
      }
    }
  }

  /** An expert lies in one group. */
  lemma GroupNumber(e: nat, n: nat, size: nat)
    requires e < n * size && size > 0
    ensures e / size < n && e / size * size <= e < e / size * size + size
  {
    var g, rest := e / size, e % size;
    assert e == g * size + rest;
    if g >= n {
      MulMonotone(n, g, size);
    }
  }

  lemma OneGroup(e: nat, size: nat, g: nat)
    requires size > 0 && g * size <= e < g * size + size
    ensures g == e / size
  {
    Quotient(e, size, e - g * size, g);
  }

  lemma {:induction false} EligibleIs(selection: seq<F32>, n: nat, groupSize: Option<nat>, groups: seq<Candidate>)
    requires n <= |selection| && (groupSize.Some? ==> groupSize.value > 0)
    ensures var cs := Eligible(selection, n, groupSize, groups);
      && (forall i, j :: 0 <= i < j < |cs| ==> cs[i].id < cs[j].id)
      && (forall i :: 0 <= i < |cs| ==> cs[i].id < n)
      && (forall c :: c in cs <==>
            c.id < n && c.score == selection[c.id] && Allowed(c.id, groupSize, groups) && IsFinite(selection[c.id]))
  {
    hide Allowed, IsFinite;
    if n > 0 {
      EligibleIs(selection, n - 1, groupSize, groups);
    }
  }

  /** Main theorem: an expert is chosen exactly when it stays and fewer than `top_k` experts that stay are ahead
      of it. */
  lemma ChosenExactlyWhen(gate: LinearGate, scores: seq<F32>, arith: GateOps, e: nat)
    requires gate.Valid() && |scores| == gate.numExperts && e < |scores|
    ensures var selection := seq(|scores|, i requires 0 <= i < |scores| => SelectedBy(gate, scores, arith.add, i));
      e in ReferenceRoute(gate, scores, arith).experts <==>
        Stays(gate, selection, arith.add, e) && |ExpertsAhead(gate, selection, arith.add, e)| < gate.topK
  {
    hide Sort, Stays, SelectedGroups, GroupSize, Allowed, Eligible;
    var selection := seq(|scores|, i requires 0 <= i < |scores| => SelectedBy(gate, scores, arith.add, i));
    assert selection == Selection(gate, scores, arith.add);
    StreamingIsReference(gate, scores, arith.add);
    var groups := SelectedGroups(gate, selection, arith.add);
    var cs := Eligible(selection, |scores|, GroupSize(gate), groups);
    EligibleIs(selection, |scores|, GroupSize(gate), groups);
    forall f: nat | f < |scores|
      ensures Stays(gate, selection, arith.add, f) <==> Candidate(f, selection[f]) in cs
    {
      AllowedStays(gate, selection, arith.add, f);
    }
    var c := Candidate(e, selection[e]);
    if c in cs {
      TopKExactlyWhen(cs, gate.topK, c);
      InTopK(cs, gate.topK, c);
      forall f | f in ExpertsAhead(gate, selection, arith.add, e)
        ensures exists d :: d in Ahead(cs, c) && d.id == f
      {
        assert Candidate(f, selection[f]) in Ahead(cs, c);
      }
      AsManyIds(ExpertsAhead(gate, selection, arith.add, e), Ahead(cs, c));
    } else {
      NotListed(cs, gate.topK, e);
    }
  }

  lemma NotListed(cs: seq<Candidate>, k: nat, id: nat)
    requires forall c :: c in cs ==> c.id != id
    ensures id !in Ids(TopK(cs, k))
  {
    hide Sort;
    SortIsPermutation(cs);
    SameElements(Sort(cs), cs);
    var top := TopK(cs, k);
    forall i | 0 <= i < |top|
      ensures top[i].id != id
    {
      assert top[i] in Elements(Sort(cs));
    }
  }

  /** The chosen experts are distinct and listed by selection score, equal scores by id. */
  lemma ChosenInOrder(gate: LinearGate, scores: seq<F32>, arith: GateOps, i: nat, j: nat)
    requires gate.Valid() && |scores| == gate.numExperts
    requires i < j < |ReferenceRoute(gate, scores, arith).experts|
    ensures var experts := ReferenceRoute(gate, scores, arith).experts;
      && experts[i] < |scores| && experts[j] < |scores| && experts[i] != experts[j]
      && var a, b := SelectedBy(gate, scores, arith.add, experts[i]), SelectedBy(gate, scores, arith.add, experts[j]);
         a > b || (a == b && experts[i] < experts[j])
  {
    hide Sort, SelectedGroups, GroupSize, Allowed, Eligible;
    var selection := Selection(gate, scores, arith.add);
    StreamingIsReference(gate, scores, arith.add);
    var cs := Eligible(selection, |scores|, GroupSize(gate), SelectedGroups(gate, selection, arith.add));
    EligibleIs(selection, |scores|, GroupSize(gate), SelectedGroups(gate, selection, arith.add));
    SortIsPermutation(cs);
    SameElements(Sort(cs), cs);
    SortIsDistinct(cs);
    SortIsOrdered(cs, i, j);
    assert Sort(cs)[i] in Elements(Sort(cs)) && Sort(cs)[j] in Elements(Sort(cs));
  }

  /** Sums of finite weights add up part by part. */
  lemma {:induction false} SumSplits(a: seq<Weight>, b: seq<Weight>)
    requires Sum(a).Fin? && Sum(b).Fin?
    ensures Sum(a + b) == Fin(Sum(a).v + Sum(b).v)
    ensures forall x: real :: Sum([Fin(x)]) == Fin(x)
  {
    if b == [] {
      assert a + b == a;
    } else {
      SumSplits(a, b[..|b| - 1]);
      assert (a + b)[..|a + b| - 1] == a + b[..|b| - 1];
    }
    assert forall x: real :: [Fin(x)][..0] == [];
  }

  /** What an expert is mixed with: its unbiased score, over the sum of the chosen ones when the gate normalises
      and that sum is positive, times the scaling factor when it is finite. */
  lemma WeightIsShare(gate: LinearGate, scores: seq<F32>, arith: GateOps, i: nat)
    requires gate.Valid() && |scores| == gate.numExperts
    requires i < |ChosenScores(gate, scores, arith)| && ChosenScores(gate, scores, arith)[i].Fin?
    ensures var decision, sum := ReferenceRoute(gate, scores, arith), Sum(ChosenScores(gate, scores, arith));
      && |decision.weights| == |decision.experts| > i && decision.experts[i] < |scores|
      && arith.value(scores[decision.experts[i]]).Fin?
      && decision.weights[i] ==
           Fin(arith.value(scores[decision.experts[i]]).v
               / (if gate.normaliseTopK && sum.Fin? && sum.v > 0.0 then sum.v else 1.0)
               * (if gate.routedScalingFactor.Fin? then gate.routedScalingFactor.v else 1.0))
  {
    hide ReferenceExperts, Sum;
    ChosenExist(gate, scores, arith.add);
    var raw := ChosenScores(gate, scores, arith);
    assert ReferenceRoute(gate, scores, arith).weights
        == Scaled(if gate.normaliseTopK then Normalised(raw) else raw, gate.routedScalingFactor);
  }
}
