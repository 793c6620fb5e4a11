/**
 The per-layer transition matrices of a routing trace: how often one leading expert follows another,
 counted into dictionaries and then normalised row by row. Arithmetic is exact.
 */
module TransitionMatrix {
  /** One line of the trace. */
  datatype Record = Record(layer: int, experts: seq<nat>)

  type Pair = (nat, nat)

  function Largest(ids: seq<nat>): (m: nat)
    ensures forall k :: 0 <= k < |ids| ==> ids[k] <= m
  {
    if ids == [] then 0
    else
      var m := Largest(ids[..|ids| - 1]);
      if ids[|ids| - 1] > m then ids[|ids| - 1] else m
  }

  /** The leading experts of a layer's non-empty records. */
  function Leaders(trace: seq<Record>, layer: int): seq<nat> {
    if trace == [] then []
    else
      var r := trace[|trace| - 1];
      Leaders(trace[..|trace| - 1], layer) + if r.layer == layer && r.experts != [] then [r.experts[0]] else []
  }

  /** The largest id seen in a layer, leading or not. */
  function MaxId(trace: seq<Record>, layer: int): nat {
    if trace == [] then 0
    else
      var r, m := trace[|trace| - 1], MaxId(trace[..|trace| - 1], layer);
      if r.layer == layer && Largest(r.experts) > m then Largest(r.experts) else m
  }

  /** How often `j` comes right after `i`. */
  function Moves(s: seq<nat>, i: nat, j: nat): nat {
    if |s| < 2 then 0
    else Moves(s[..|s| - 1], i, j) + if s[|s| - 2] == i && s[|s| - 1] == j then 1 else 0
  }

  /** How often anything comes right after `i`. */
  function Departures(s: seq<nat>, i: nat): nat {
    if |s| < 2 then 0 else Departures(s[..|s| - 1], i) + if s[|s| - 2] == i then 1 else 0
  }

  /** The probability of moving from `i` to `j`; a row without observations is all zero. */
  function Probability(s: seq<nat>, i: nat, j: nat): real {
    if Departures(s, i) > 0 then Moves(s, i, j) as real / Departures(s, i) as real else 0.0
  }

  // ----- What these functions stand for

  lemma {:induction false} LargestIsSeen(ids: seq<nat>)
    ensures Largest(ids) == 0 || Largest(ids) in ids
  {
    if ids != [] {
      LargestIsSeen(ids[..|ids| - 1]);
    }
  }

  /** `MaxId` bounds every id seen in the layer and is one of them, or 0. */
  lemma {:induction false} MaxIdIsSeen(trace: seq<Record>, layer: int)
    ensures forall k, e :: 0 <= k < |trace| && trace[k].layer == layer && e in trace[k].experts ==> e <= MaxId(trace, layer)
    ensures MaxId(trace, layer) == 0
         || exists k :: 0 <= k < |trace| && trace[k].layer == layer && MaxId(trace, layer) in trace[k].experts
  {
    if trace != [] {
      var n := |trace| - 1;
      MaxIdIsSeen(trace[..n], layer);
      LargestIsSeen(trace[n].experts);
      if MaxId(trace, layer) == MaxId(trace[..n], layer) != 0 {
        var k :| 0 <= k < n && trace[..n][k].layer == layer && MaxId(trace, layer) in trace[..n][k].experts;
        assert trace[k].layer == layer && MaxId(trace, layer) in trace[k].experts;
      } else if MaxId(trace, layer) != 0 {
        assert trace[n].layer == layer && MaxId(trace, layer) in trace[n].experts;
      }
      forall k, e | 0 <= k < |trace| && trace[k].layer == layer && e in trace[k].experts
        ensures e <= MaxId(trace, layer)
      {
        assert k < n ==> trace[..n][k] == trace[k];
      }
    }
  }

  predicate Leads(trace: seq<Record>, layer: int, k: nat) {
    k < |trace| && trace[k].layer == layer && trace[k].experts != []
  }

  /** The positions of the layer's non-empty records. */
  ghost function Positions(trace: seq<Record>, layer: int, n: nat): seq<nat> {
    if n == 0 then [] else Positions(trace, layer, n - 1) + if Leads(trace, layer, n - 1) then [n - 1] else []
  }

  lemma {:induction false} PositionsAre(trace: seq<Record>, layer: int, n: nat)
    ensures var at := Positions(trace, layer, n);
      && (forall k: nat :: k in at <==> k < n && Leads(trace, layer, k))
      && (forall i :: 0 <= i < |at| ==> at[i] < n)
      && (forall i, j :: 0 <= i < j < |at| ==> at[i] < at[j])
  {
    hide Leads;
    if n > 0 {
      PositionsAre(trace, layer, n - 1);
    }
  }

  /** The leaders are the first experts of exactly the layer's non-empty records, in the order of the trace. */
  lemma {:induction false} LeadersAre(trace: seq<Record>, layer: int, n: nat)
    requires n <= |trace|
    ensures var at, s := Positions(trace, layer, n), Leaders(trace[..n], layer);
      |at| == |s| && forall i :: 0 <= i < |at| ==> Leads(trace, layer, at[i]) && s[i] == trace[at[i]].experts[0]
  {
    if n > 0 {
      LeadersAre(trace, layer, n - 1);
      assert trace[..n][..n - 1] == trace[..n - 1];
    }
  }

  predicate Follows(s: seq<nat>, k: nat, i: nat, j: nat) { k + 1 < |s| && s[k] == i && s[k + 1] == j }

  ghost function Places(s: seq<nat>, i: nat, j: nat): set<nat> { set k: nat | k < |s| && Follows(s, k, i, j) }

  /** `Moves` counts the places where `j` follows `i`. */
  lemma {:induction false} MovesArePlaces(s: seq<nat>, i: nat, j: nat)
    ensures Moves(s, i, j) == |Places(s, i, j)|
  {
    if |s| < 2 {
      assert Places(s, i, j) == {};
    } else {
      MovesArePlaces(s[..|s| - 1], i, j);
      OneMorePlace(s, i, j);
    }
  }

  lemma OneMorePlace(s: seq<nat>, i: nat, j: nat)
    requires |s| >= 2
    ensures var n := |s| - 1; |Places(s, i, j)| == |Places(s[..n], i, j)| + if s[n - 1] == i && s[n] == j then 1 else 0
  {
    var n := |s| - 1;
    assert Places(s, i, j) == Places(s[..n], i, j) + if s[n - 1] == i && s[n] == j then {n - 1} else {};
  }

  // ----- Counting

  /** The dictionaries of the first loop; a missing count is 0. */
  datatype Tally = Tally(counts: map<int, map<Pair, nat>>, maxId: map<int, nat>, prev: map<int, nat>)

  function CountOf(c: map<Pair, nat>, i: nat, j: nat): nat { if (i, j) in c then c[(i, j)] else 0 }

  function CountIn(counts: map<int, map<Pair, nat>>, layer: int, i: nat, j: nat): nat {
    if layer in counts then CountOf(counts[layer], i, j) else 0
  }

  ghost predicate TalliesLayer(t: Tally, trace: seq<Record>, layer: int) {
    var s := Leaders(trace, layer);
    && (layer in t.prev <==> s != []) && (s != [] ==> t.prev[layer] == s[|s| - 1])
    && (if layer in t.maxId then t.maxId[layer] else 0) == MaxId(trace, layer)
    && (layer in t.counts <==> |s| >= 2)
    && (forall i, j :: CountIn(t.counts, layer, i, j) == Moves(s, i, j))
    && (layer in t.counts ==> forall p :: p in t.counts[layer] ==> t.counts[layer][p] > 0)
  }

  /** One record folded into the dictionaries. */
  method CountRecord(t: Tally, r: Record) returns (t': Tally)
    requires forall layer :: layer in t.counts ==> forall p :: p in t.counts[layer] ==> t.counts[layer][p] > 0
    ensures r.experts == [] ==> t' == t
    ensures r.experts != [] ==>
      && t'.prev == t.prev[r.layer := r.experts[0]]
      && (forall layer :: layer != r.layer ==> (layer in t'.counts <==> layer in t.counts) && (layer in t'.maxId <==> layer in t.maxId))
      && (forall layer :: layer != r.layer && layer in t.counts ==> t'.counts[layer] == t.counts[layer])
      && (forall layer :: layer != r.layer && layer in t.maxId ==> t'.maxId[layer] == t.maxId[layer])
      && r.layer in t'.maxId
      && t'.maxId[r.layer] == (var m := if r.layer in t.maxId then t.maxId[r.layer] else 0;
                               if Largest(r.experts) > m then Largest(r.experts) else m)
      && (r.layer in t'.counts <==> r.layer in t.counts || r.layer in t.prev)
      && (forall i, j :: CountIn(t'.counts, r.layer, i, j) == CountIn(t.counts, r.layer, i, j)
            + if r.layer in t.prev && t.prev[r.layer] == i && r.experts[0] == j then 1 else 0)
      && (r.layer in t'.counts ==> forall p :: p in t'.counts[r.layer] ==> t'.counts[r.layer][p] > 0)
  {
    t' := t;
    if r.experts == [] {
      return;
    }
    var cur := r.experts[0];
    var m := if r.layer in t.maxId then t.maxId[r.layer] else 0;
    t' := t'.(maxId := t.maxId[r.layer := if Largest(r.experts) > m then Largest(r.experts) else m]);
    if r.layer in t.prev {
      var key := (t.prev[r.layer], cur);
      var c := if r.layer in t.counts then t.counts[r.layer] else map[];
      t' := t'.(counts := t.counts[r.layer := c[key := CountOf(c, key.0, key.1) + 1]]);
    }
    t' := t'.(prev := t.prev[r.layer := cur]);
  }

  lemma TallyStep(t: Tally, t': Tally, trace: seq<Record>, n: nat, layer: int)
    requires n < |trace| && TalliesLayer(t, trace[..n], layer)
    requires trace[n].layer != layer || trace[n].experts == [] ==>
      && (layer in t'.counts <==> layer in t.counts) && (layer in t.counts ==> t'.counts[layer] == t.counts[layer])
      && (layer in t'.maxId <==> layer in t.maxId) && (layer in t.maxId ==> t'.maxId[layer] == t.maxId[layer])
      && (layer in t'.prev <==> layer in t.prev) && (layer in t.prev ==> t'.prev[layer] == t.prev[layer])
    ensures trace[n].layer != layer || trace[n].experts == [] ==> TalliesLayer(t', trace[..n + 1], layer)
  {
    assert trace[..n + 1][..n] == trace[..n];
    if trace[n].layer != layer || trace[n].experts == [] {
      assert forall i, j :: CountIn(t'.counts, layer, i, j) == CountIn(t.counts, layer, i, j);
      assert Leaders(trace[..n + 1], layer) == Leaders(trace[..n], layer);
    }
  }

  lemma TallyOwnStep(t: Tally, t': Tally, trace: seq<Record>, n: nat)
    requires n < |trace| && trace[n].experts != [] && TalliesLayer(t, trace[..n], trace[n].layer)
    requires var r := trace[n];
      && r.layer in t'.prev && t'.prev[r.layer] == r.experts[0]
      && r.layer in t'.maxId
      && t'.maxId[r.layer] == (var m := if r.layer in t.maxId then t.maxId[r.layer] else 0;
                               if Largest(r.experts) > m then Largest(r.experts) else m)
      && (r.layer in t'.counts <==> r.layer in t.counts || r.layer in t.prev)
      && (forall i, j :: CountIn(t'.counts, r.layer, i, j) == CountIn(t.counts, r.layer, i, j)
            + if r.layer in t.prev && t.prev[r.layer] == i && r.experts[0] == j then 1 else 0)
      && (r.layer in t'.counts ==> forall p :: p in t'.counts[r.layer] ==> t'.counts[r.layer][p] > 0)
    ensures TalliesLayer(t', trace[..n + 1], trace[n].layer)
  {
    hide Largest, CountIn;
    var layer := trace[n].layer;
    assert trace[..n + 1][..n] == trace[..n];
    var s := Leaders(trace[..n], layer);
    var s' := Leaders(trace[..n + 1], layer);
    assert s' == s + [trace[n].experts[0]];
    assert s'[..|s|] == s;
  }

  method CountMoves(trace: seq<Record>) returns (t: Tally)
    ensures forall layer :: TalliesLayer(t, trace, layer)
  {
    t := Tally(map[], map[], map[]);
    for n := 0 to |trace|
      invariant forall layer :: TalliesLayer(t, trace[..n], layer)
    {
      ghost var before := t;
      assert forall layer :: layer in t.counts ==> TalliesLayer(t, trace[..n], layer);
      t := CountRecord(t, trace[n]);
      ghost var seen := trace[..n + 1];
      forall layer
        ensures TalliesLayer(t, seen, layer)
      {
        assert TalliesLayer(before, trace[..n], layer);
        if layer == trace[n].layer && trace[n].experts != [] {
          TallyOwnStep(before, t, trace, n);
        } else {
          TallyStep(before, t, trace, n, layer);
        }
      }
    }
    assert trace[..|trace|] == trace;
  }

  // ----- Rows

  /** The counts of row `i` that are in `seen`, summed over the first `n` columns. */
  function RowCount(c: map<Pair, nat>, seen: set<Pair>, i: nat, n: nat): nat {
    if n == 0 then 0
    else RowCount(c, seen, i, n - 1) + if (i, n - 1) in seen then CountOf(c, i, n - 1) else 0
  }

  lemma {:induction false} RowCountStep(c: map<Pair, nat>, seen: set<Pair>, p: Pair, i: nat, n: nat)
    requires p !in seen
    ensures RowCount(c, seen + {p}, i, n) == RowCount(c, seen, i, n) + if p.0 == i && p.1 < n then CountOf(c, p.0, p.1) else 0
  {
    if n > 0 {
      RowCountStep(c, seen, p, i, n - 1);
    }
  }

  lemma {:induction false} RowCountEmpty(c: map<Pair, nat>, i: nat, n: nat)
    ensures RowCount(c, {}, i, n) == 0
  {
    if n > 0 {
      RowCountEmpty(c, i, n - 1);
    }
  }

  function RowMoves(s: seq<nat>, i: nat, n: nat): nat {
    if n == 0 then 0 else RowMoves(s, i, n - 1) + Moves(s, i, n - 1)
  }

  lemma {:induction false} RowMovesStep(s: seq<nat>, i: nat, n: nat)
    requires |s| >= 2
    ensures RowMoves(s, i, n) == RowMoves(s[..|s| - 1], i, n) + if s[|s| - 2] == i && s[|s| - 1] < n then 1 else 0
  {
    if n > 0 {
      RowMovesStep(s, i, n - 1);
    }
  }

  lemma {:induction false} RowMovesNone(s: seq<nat>, i: nat, n: nat)
    requires |s| < 2
    ensures RowMoves(s, i, n) == 0
  {
    if n > 0 {
      RowMovesNone(s, i, n - 1);
    }
  }

  /** Nothing is lost: the moves out of `i`, summed over all targets, are its departures. */
  lemma {:induction false} RowConserves(s: seq<nat>, i: nat, n: nat)
    requires forall k :: 0 <= k < |s| ==> s[k] < n
    ensures RowMoves(s, i, n) == Departures(s, i)
  {
    if |s| >= 2 {
      RowConserves(s[..|s| - 1], i, n);
      RowMovesStep(s, i, n);
    } else {
      RowMovesNone(s, i, n);
    }
  }

  /** The departures of the experts below `n`. */
  function AllDepartures(s: seq<nat>, n: nat): nat {
    if n == 0 then 0 else AllDepartures(s, n - 1) + Departures(s, n - 1)
  }

  lemma {:induction false} AllDeparturesStep(s: seq<nat>, n: nat)
    requires |s| >= 2
    ensures AllDepartures(s, n) == AllDepartures(s[..|s| - 1], n) + if s[|s| - 2] < n then 1 else 0
  {
    if n > 0 {
      AllDeparturesStep(s, n - 1);
    }
  }

  lemma {:induction false} NoDepartures(s: seq<nat>, n: nat)
    requires |s| < 2
    ensures AllDepartures(s, n) == 0
  {
    if n > 0 {
      NoDepartures(s, n - 1);
    }
  }

  /** Every record of a layer but its last is counted exactly once. */
  lemma {:induction false} CountsConserve(s: seq<nat>, n: nat)
    requires forall k :: 0 <= k < |s| ==> s[k] < n
    ensures AllDepartures(s, n) == if s == [] then 0 else |s| - 1
  {
    if |s| >= 2 {
      CountsConserve(s[..|s| - 1], n);
      AllDeparturesStep(s, n);
    } else {
      NoDepartures(s, n);
    }
  }

  /** An entry times the departures of its row is the number of moves. */
  lemma EntryIsFrequency(s: seq<nat>, i: nat, j: nat)
    ensures Probability(s, i, j) * Departures(s, i) as real == Moves(s, i, j) as real
  {
    hide Moves, Departures;
    NoDeparturesNoMoves(s, i, j);
    if Departures(s, i) > 0 {
      var m, d := Moves(s, i, j) as real, Departures(s, i) as real;
      assert m / d * d == m;
    }
  }

  function RowSum(s: seq<nat>, i: nat, n: nat): real {
    if n == 0 then 0.0 else RowSum(s, i, n - 1) + Probability(s, i, n - 1)
  }

  lemma {:induction false} RowSumIs(s: seq<nat>, i: nat, n: nat)
    requires Departures(s, i) > 0
    ensures RowSum(s, i, n) == RowMoves(s, i, n) as real / Departures(s, i) as real
  {
    if n > 0 {
      RowSumIs(s, i, n - 1);
      AddOver(RowMoves(s, i, n - 1), Moves(s, i, n - 1), Departures(s, i));
    }
  }

  lemma AddOver(a: nat, b: nat, d: nat)
    requires d > 0
    ensures a as real / d as real + b as real / d as real == (a + b) as real / d as real
  {
  }

  lemma WholeOfItself(d: nat)
    requires d > 0
    ensures d as real / d as real == 1.0
  {
  }

  lemma {:induction false} EmptyRow(s: seq<nat>, i: nat, n: nat)
    requires Departures(s, i) == 0
    ensures RowSum(s, i, n) == 0.0
  {
    if n > 0 {
      EmptyRow(s, i, n - 1);
    }
  }

  /** The matrix is row-stochastic: a row sums to 1, or to 0 when its expert never led before another record. */
  lemma RowsSumToOne(s: seq<nat>, i: nat, n: nat)
    requires forall k :: 0 <= k < |s| ==> s[k] < n
    ensures RowSum(s, i, n) == if Departures(s, i) > 0 then 1.0 else 0.0
  {
    hide RowSum, RowMoves, Departures;
    RowConserves(s, i, n);
    if Departures(s, i) > 0 {
      RowSumIs(s, i, n);
      WholeOfItself(Departures(s, i));
    } else {
      EmptyRow(s, i, n);
    }
  }

  lemma {:induction false} LeadersBelowMax(trace: seq<Record>, layer: int)
    ensures forall k :: 0 <= k < |Leaders(trace, layer)| ==> Leaders(trace, layer)[k] <= MaxId(trace, layer)
  {
    if trace != [] {
      LeadersBelowMax(trace[..|trace| - 1], layer);
    }
  }

  /** Every layer's matrix, at the size it is built with. */
  lemma LayersAreStochastic(trace: seq<Record>, layer: int, i: nat)
    ensures var s := Leaders(trace, layer);
      RowSum(s, i, MaxId(trace, layer) + 1) == if Departures(s, i) > 0 then 1.0 else 0.0
  {
    hide Leaders, MaxId, RowSum, Departures;
    LeadersBelowMax(trace, layer);
    RowsSumToOne(Leaders(trace, layer), i, MaxId(trace, layer) + 1);
  }

  // ----- The matrices

  /** Fill one matrix and its row totals from the counts, in any order. */
  method FillMatrix(c: map<Pair, nat>, n: nat) returns (mat: array2<real>, rowTotal: array<nat>)
    requires forall p :: p in c ==> p.0 < n && p.1 < n
    ensures fresh(mat) && fresh(rowTotal) && mat.Length0 == mat.Length1 == rowTotal.Length == n
    ensures forall i, j :: 0 <= i < n && 0 <= j < n ==> mat[i, j] == CountOf(c, i, j) as real
    ensures forall i :: 0 <= i < n ==> rowTotal[i] == RowCount(c, c.Keys, i, n)
  {
    mat := new real[n, n]((i, j) => 0.0);
    rowTotal := new nat[n](i => 0);
    var todo := c.Keys;
    ghost var seen: set<Pair> := {};
    forall i: nat
      ensures RowCount(c, {}, i, n) == 0
    {
      RowCountEmpty(c, i, n);
    }
    while todo != {}
      invariant seen + todo == c.Keys && seen !! todo
      invariant forall i, j :: 0 <= i < n && 0 <= j < n ==> mat[i, j] == if (i, j) in seen then CountOf(c, i, j) as real else 0.0
      invariant forall i :: 0 <= i < n ==> rowTotal[i] == RowCount(c, seen, i, n)
      decreases todo
    {
      var p: Pair :| p in todo;
      mat[p.0, p.1] := mat[p.0, p.1] + c[p] as real;
      rowTotal[p.0] := rowTotal[p.0] + c[p];
      forall i: nat
        ensures RowCount(c, seen + {p}, i, n) == RowCount(c, seen, i, n) + if p.0 == i && p.1 < n then CountOf(c, p.0, p.1) else 0
      {
        RowCountStep(c, seen, p, i, n);
      }
      todo := todo - {p};
      seen := seen + {p};
    }
  }

  function Normal(count: nat, total: nat): real { if total > 0 then count as real / total as real else 0.0 }

  /** `mat[i][j] *= 1.0 / row_total[i]`, for the rows with observations. */
  method NormaliseRows(mat: array2<real>, rowTotal: array<nat>, ghost c: map<Pair, nat>)
    requires mat.Length0 == mat.Length1 == rowTotal.Length
    requires forall i, j :: 0 <= i < mat.Length0 && 0 <= j < mat.Length0 ==>
      mat[i, j] == CountOf(c, i, j) as real && (rowTotal[i] == 0 ==> CountOf(c, i, j) == 0)
    modifies mat
    ensures forall i, j :: 0 <= i < mat.Length0 && 0 <= j < mat.Length0 ==> mat[i, j] == Normal(CountOf(c, i, j), rowTotal[i])
  {
    hide Normal;
    var n := mat.Length0;
    for i := 0 to n
      invariant forall r, j :: 0 <= r < n && 0 <= j < n ==>
        mat[r, j] == if r < i then Normal(CountOf(c, r, j), rowTotal[r]) else CountOf(c, r, j) as real
    {
      if rowTotal[i] > 0 {
        var inv := 1.0 / rowTotal[i] as real;
        for j := 0 to n
          invariant forall r, k :: 0 <= r < n && 0 <= k < n ==>
            mat[r, k] == if r < i || (r == i && k < j) then Normal(CountOf(c, r, k), rowTotal[r]) else CountOf(c, r, k) as real
        {
          TimesInverse(CountOf(c, i, j), rowTotal[i]);
          mat[i, j] := mat[i, j] * inv;
        }
      } else {
        forall j | 0 <= j < n
          ensures Normal(CountOf(c, i, j), rowTotal[i]) == mat[i, j]
        {
          NormalZero();
        }
      }
    }
  }

  lemma NormalZero()
    ensures Normal(0, 0) == 0.0
  {
  }

  lemma TimesInverse(count: nat, total: nat)
    requires total > 0
    ensures count as real * (1.0 / total as real) == Normal(count, total)
  {
  }

  lemma {:induction false} RowCountIsMoves(c: map<Pair, nat>, s: seq<nat>, i: nat, n: nat)
    requires forall i, j :: CountOf(c, i, j) == Moves(s, i, j)
    ensures RowCount(c, c.Keys, i, n) == RowMoves(s, i, n)
  {
    if n > 0 {
      RowCountIsMoves(c, s, i, n - 1);
    }
  }

  lemma {:induction false} NoDeparturesNoMoves(s: seq<nat>, i: nat, j: nat)
    ensures Moves(s, i, j) <= Departures(s, i)
  {
    if |s| >= 2 {
      NoDeparturesNoMoves(s[..|s| - 1], i, j);
    }
  }

  lemma {:induction false} MovesBelow(s: seq<nat>, i: nat, j: nat, n: nat)
    requires forall k :: 0 <= k < |s| ==> s[k] < n
    requires Moves(s, i, j) > 0
    ensures i < n && j < n
  {
    if !(s[|s| - 2] == i && s[|s| - 1] == j) {
      MovesBelow(s[..|s| - 1], i, j, n);
    }
  }

  /** One layer's matrix. */
  method LayerMatrix(c: map<Pair, nat>, n: nat, ghost s: seq<nat>) returns (mat: array2<real>)
    requires forall k :: 0 <= k < |s| ==> s[k] < n
    requires (forall i, j :: CountOf(c, i, j) == Moves(s, i, j)) && forall p :: p in c ==> c[p] > 0
    ensures fresh(mat) && mat.Length0 == mat.Length1 == n
    ensures forall i, j :: 0 <= i < n && 0 <= j < n ==> mat[i, j] == Probability(s, i, j)
  {
    hide Moves, Departures;
    forall p | p in c
      ensures p.0 < n && p.1 < n
    {
      assert CountOf(c, p.0, p.1) == c[p];
      MovesBelow(s, p.0, p.1, n);
    }
    var rowTotal;
    mat, rowTotal := FillMatrix(c, n);
    forall i: nat
      ensures RowCount(c, c.Keys, i, n) == Departures(s, i)
    {
      RowCountIsMoves(c, s, i, n);
      RowConserves(s, i, n);
    }
    forall i: nat, j: nat
      ensures CountOf(c, i, j) <= Departures(s, i)
    {
      NoDeparturesNoMoves(s, i, j);
    }
    NormaliseRows(mat, rowTotal, c);
  }

  lemma SomeLayer(layers: set<int>)
    requires layers != {}
    ensures exists layer :: layer in layers
  {
    assert (forall layer: int :: layer !in layers) ==> layers == {};
  }

  /** The matrix of one layer, from the dictionaries. */
  method MatrixOf(t: Tally, ghost trace: seq<Record>, layer: int) returns (n: nat, mat: array2<real>)
    requires TalliesLayer(t, trace, layer) && layer in t.counts
    ensures fresh(mat) && IsMatrixOf(n, mat, trace, layer)
  {
    hide Leaders, MaxId, Probability, Moves;
    LeadersBelowMax(trace, layer);
    n := (if layer in t.maxId then t.maxId[layer] else 0) + 1;
    assert forall i, j :: CountOf(t.counts[layer], i, j) == CountIn(t.counts, layer, i, j);
    mat := LayerMatrix(t.counts[layer], n, Leaders(trace, layer));
  }

  /** `build_transition_matrices`: a layer has a matrix exactly when two of its records are non-empty; it spans
      every id seen in the layer, and each entry is the observed frequency of that move. */
  method BuildTransitionMatrices(trace: seq<Record>) returns (out: map<int, (nat, array2<real>)>)
    ensures forall layer :: layer in out <==> |Leaders(trace, layer)| >= 2
    ensures forall layer :: layer in out ==> IsMatrixOf(out[layer].0, out[layer].1, trace, layer)
  {
    var t := CountMoves(trace);
    forall layer
      ensures layer in t.counts <==> |Leaders(trace, layer)| >= 2
    {
      assert TalliesLayer(t, trace, layer);
    }
    hide TalliesLayer, IsMatrixOf, Leaders;
    out := map[];
    var todo := t.counts.Keys;
    ghost var seen: set<int> := {};
    while todo != {}
      invariant seen + todo == t.counts.Keys && seen !! todo && out.Keys == seen
      invariant forall layer :: layer in seen ==> IsMatrixOf(out[layer].0, out[layer].1, trace, layer)
      decreases todo
    {
      SomeLayer(todo);
      var layer :| layer in todo;
      var n, mat := MatrixOf(t, trace, layer);
      out := out[layer := (n, mat)];
      todo := todo - {layer};
      seen := seen + {layer};
    }
  }

  /** The matrix of a layer: it spans every id seen there, and each entry is the frequency of that move. */
  ghost predicate IsMatrixOf(n: nat, mat: array2<real>, trace: seq<Record>, layer: int)
    reads mat
  {
    && n == MaxId(trace, layer) + 1 && mat.Length0 == mat.Length1 == n
    && forall i, j :: 0 <= i < n && 0 <= j < n ==> mat[i, j] == Probability(Leaders(trace, layer), i, j)
  }
}
