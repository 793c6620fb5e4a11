/**
 Greedy alias clustering of experts: in scan order, each expert becomes the alias of the earliest canonical
 expert it is similar enough to, or else a canonical expert itself.
 */
module Clustering {
  import opened Options
  import opened Sequences

  /** An expert file: its id and its weight vector. `similar(v, c)` says that the cosine of the two vectors
      reaches the threshold. */
  datatype Expert<V> = Expert(id: int, weights: V)

  datatype State = State(canonical: seq<int>, aliases: map<int, int>)

  /** `next(x for (xid, x) in vecs if xid == cid)`: where the first expert of that id is. */
  function First<V>(vecs: seq<Expert<V>>, id: int): (p: nat)
    ensures p <= |vecs|
    ensures p < |vecs| ==> vecs[p].id == id
    ensures forall q :: 0 <= q < p ==> vecs[q].id != id
  {
    if vecs == [] || vecs[0].id == id then 0
    else
      assert forall q :: 1 <= q < |vecs| ==> vecs[q] == vecs[1..][q - 1];
      1 + First(vecs[1..], id)
  }

  predicate Known<V>(vecs: seq<Expert<V>>, ids: seq<int>) {
    forall k :: 0 <= k < |ids| ==> First(vecs, ids[k]) < |vecs|
  }

  predicate Joins<V>(vecs: seq<Expert<V>>, similar: (V, V) -> bool, v: V, id: int)
    requires First(vecs, id) < |vecs|
  {
    similar(v, vecs[First(vecs, id)].weights)
  }

  /** The first canonical expert that `v` is similar to. */
  function Match<V>(vecs: seq<Expert<V>>, similar: (V, V) -> bool, v: V, canonical: seq<int>): (k: Option<nat>)
    requires Known(vecs, canonical)
    ensures k.Some? ==> k.value < |canonical| && Joins(vecs, similar, v, canonical[k.value])
    ensures forall i :: 0 <= i < |canonical| && (k.None? || i < k.value) ==> !Joins(vecs, similar, v, canonical[i])
  {
    if canonical == [] then None
    else
      var n := |canonical| - 1;
      var before := Match(vecs, similar, v, canonical[..n]);
      if before.Some? then before
      else if Joins(vecs, similar, v, canonical[n]) then Some(n) else None
  }

  /** The clustering of the first `n` experts. */
  function Cluster<V>(vecs: seq<Expert<V>>, similar: (V, V) -> bool, n: nat): (s: State)
    requires n <= |vecs|
    ensures Known(vecs, s.canonical)
  {
    if n == 0 then State([], map[])
    else
      var s := Cluster(vecs, similar, n - 1);
      var e := vecs[n - 1];
      var chosen := Match(vecs, similar, e.weights, s.canonical);
      if chosen.None? then State(s.canonical + [e.id], s.aliases)
      else State(s.canonical, s.aliases[e.id := s.canonical[chosen.value]])
  }

  /** The clustering loop of `main`. */
  method ClusterExperts<V>(vecs: seq<Expert<V>>, similar: (V, V) -> bool) returns (canonicalIds: seq<int>, aliasMap: map<int, int>)
    ensures State(canonicalIds, aliasMap) == Cluster(vecs, similar, |vecs|)
  {
    hide First, Match;
    canonicalIds, aliasMap := [], map[];
    for n := 0 to |vecs|
      invariant State(canonicalIds, aliasMap) == Cluster(vecs, similar, n)
    {
      var e := vecs[n];
      var chosen: Option<int> := None;
      for i := 0 to |canonicalIds|
        invariant chosen.None?
        invariant forall j :: 0 <= j < i ==> !Joins(vecs, similar, e.weights, canonicalIds[j])
      {
        var cv := vecs[First(vecs, canonicalIds[i])].weights;
        if similar(e.weights, cv) {
          chosen := Some(canonicalIds[i]);
          assert Match(vecs, similar, e.weights, canonicalIds) == Some(i);
          break;
        }
      }
      if chosen.None? {
        canonicalIds := canonicalIds + [e.id];
      } else {
        aliasMap := aliasMap[e.id := chosen.value];
      }
    }
  }

  // ----- What the clusters are

  function Ids<V>(vecs: seq<Expert<V>>): (r: seq<int>)
    ensures |r| == |vecs|
  {
    seq(|vecs|, p requires 0 <= p < |vecs| => vecs[p].id)
  }

  lemma FirstIsOwn<V>(vecs: seq<Expert<V>>, p: nat)
    requires Distinct(Ids(vecs)) && p < |vecs|
    ensures First(vecs, vecs[p].id) == p
  {
    hide First;
    var q := First(vecs, vecs[p].id);
    assert q <= p;
    assert Ids(vecs)[q] == Ids(vecs)[p];
  }

  /** Expert `p` is the canonical expert number `k`: similar to none before it. */
  ghost predicate IsCanonical<V>(vecs: seq<Expert<V>>, similar: (V, V) -> bool, s: State, p: nat, k: nat)
    requires p < |vecs| && Known(vecs, s.canonical)
  {
    && k < |s.canonical| && s.canonical[k] == vecs[p].id && vecs[p].id !in s.aliases
    && forall i :: 0 <= i < k ==> !Joins(vecs, similar, vecs[p].weights, s.canonical[i])
  }

  /** Expert `p` is an alias of canonical expert number `k`: the earliest it is similar to, scanned before it. */
  ghost predicate IsAlias<V>(vecs: seq<Expert<V>>, similar: (V, V) -> bool, s: State, p: nat, k: nat)
    requires p < |vecs| && Known(vecs, s.canonical)
  {
    && vecs[p].id in s.aliases && vecs[p].id !in s.canonical
    && k < |s.canonical| && s.aliases[vecs[p].id] == s.canonical[k]
    && Joins(vecs, similar, vecs[p].weights, s.canonical[k]) && First(vecs, s.canonical[k]) < p
    && forall i :: 0 <= i < k ==> !Joins(vecs, similar, vecs[p].weights, s.canonical[i])
  }

  /** Canonical ids are listed in scan order, and all ids come from the experts seen. */
  lemma {:induction false} CanonicalInScanOrder<V>(vecs: seq<Expert<V>>, similar: (V, V) -> bool, n: nat)
    requires Distinct(Ids(vecs)) && n <= |vecs|
    ensures var s := Cluster(vecs, similar, n);
      && (forall k :: 0 <= k < |s.canonical| ==> First(vecs, s.canonical[k]) < n)
      && (forall i, j :: 0 <= i < j < |s.canonical| ==> First(vecs, s.canonical[i]) < First(vecs, s.canonical[j]))
      && (forall id :: id in s.aliases ==> First(vecs, id) < n)
  {
    hide First, Match, Joins, Known;
    if n > 0 {
      CanonicalInScanOrder(vecs, similar, n - 1);
      FirstIsOwn(vecs, n - 1);
    }
  }

  /** The expert just scanned. */
  lemma NewestHasItsPlace<V>(vecs: seq<Expert<V>>, similar: (V, V) -> bool, n: nat) returns (k: nat)
    requires Distinct(Ids(vecs)) && 0 < n <= |vecs|
    ensures var s := Cluster(vecs, similar, n);
      IsCanonical(vecs, similar, s, n - 1, k) || IsAlias(vecs, similar, s, n - 1, k)
  {
    hide First, Match, Joins, Known;
    var before := Cluster(vecs, similar, n - 1);
    CanonicalInScanOrder(vecs, similar, n - 1);
    FirstIsOwn(vecs, n - 1);
    var chosen := Match(vecs, similar, vecs[n - 1].weights, before.canonical);
    k := if chosen.Some? then chosen.value else |before.canonical|;
  }

  /** Scanning one more expert moves nobody. */
  lemma PlacesAreKept<V>(vecs: seq<Expert<V>>, similar: (V, V) -> bool, n: nat, p: nat, k: nat)
    requires Distinct(Ids(vecs)) && p + 1 < n <= |vecs|
    requires var s := Cluster(vecs, similar, n - 1);
      IsCanonical(vecs, similar, s, p, k) || IsAlias(vecs, similar, s, p, k)
    ensures var s := Cluster(vecs, similar, n);
      IsCanonical(vecs, similar, s, p, k) || IsAlias(vecs, similar, s, p, k)
  {
    hide First, Match, Joins, Known;
    assert Ids(vecs)[n - 1] != Ids(vecs)[p];
  }

  /** With distinct ids every expert is canonical or an alias of the earliest similar canonical expert. */
  lemma {:induction false} EachHasItsPlace<V>(vecs: seq<Expert<V>>, similar: (V, V) -> bool, n: nat, p: nat) returns (k: nat)
    requires Distinct(Ids(vecs)) && p < n <= |vecs|
    ensures var s := Cluster(vecs, similar, n);
      IsCanonical(vecs, similar, s, p, k) || IsAlias(vecs, similar, s, p, k)
  {
    hide Cluster, First, Match, Joins, Known, IsCanonical, IsAlias;
    if p == n - 1 {
      k := NewestHasItsPlace(vecs, similar, n);
    } else {
      k := EachHasItsPlace(vecs, similar, n - 1, p);
      PlacesAreKept(vecs, similar, n, p, k);
    }
  }

  /** Canonical experts are pairwise dissimilar, and aliases lead straight to a similar canonical expert, scanned
      earlier: no chains, no cycles. */
  lemma ClustersAreSound<V>(vecs: seq<Expert<V>>, similar: (V, V) -> bool)
    requires Distinct(Ids(vecs))
    ensures var s := Cluster(vecs, similar, |vecs|);
      && (forall i, j :: 0 <= i < j < |s.canonical| ==>
            !similar(vecs[First(vecs, s.canonical[j])].weights, vecs[First(vecs, s.canonical[i])].weights))
      && (forall id :: id in s.aliases ==>
            s.aliases[id] in s.canonical && s.aliases[id] !in s.aliases && First(vecs, s.aliases[id]) < First(vecs, id)
            && var p, q := First(vecs, id), First(vecs, s.aliases[id]);
               p < |vecs| && q < |vecs| && similar(vecs[p].weights, vecs[q].weights))
  {
    var s := Cluster(vecs, similar, |vecs|);
    CanonicalInScanOrder(vecs, similar, |vecs|);
    forall i, j | 0 <= i < j < |s.canonical|
      ensures !Joins(vecs, similar, vecs[First(vecs, s.canonical[j])].weights, s.canonical[i])
    {
      var k := EachHasItsPlace(vecs, similar, |vecs|, First(vecs, s.canonical[j]));
      assert k == j;
    }
    forall id | id in s.aliases
      ensures s.aliases[id] in s.canonical && s.aliases[id] !in s.aliases && First(vecs, s.aliases[id]) < First(vecs, id)
      ensures First(vecs, id) < |vecs| && similar(vecs[First(vecs, id)].weights, vecs[First(vecs, s.aliases[id])].weights)
    {
      var p := First(vecs, id);
      var k := EachHasItsPlace(vecs, similar, |vecs|, p);
      var _ := EachHasItsPlace(vecs, similar, |vecs|, First(vecs, s.canonical[k]));
    }
  }

  // ----- When the clusters account for every file

  lemma {:induction false} EveryIdPlaced<V>(vecs: seq<Expert<V>>, similar: (V, V) -> bool, n: nat)
    requires n <= |vecs|
    ensures var s := Cluster(vecs, similar, n);
      Elements(s.canonical) + s.aliases.Keys == Elements(Ids(vecs[..n]))
  {
    hide Elements, Match, Joins, First, Known;
    if n > 0 {
      EveryIdPlaced(vecs, similar, n - 1);
      var before, e := Cluster(vecs, similar, n - 1), vecs[n - 1];
      assert Ids(vecs[..n]) == Ids(vecs[..n - 1]) + [e.id];
      ElementsOneMore(Ids(vecs[..n - 1]), e.id);
      ElementsOneMore(before.canonical, e.id);
    } else {
      assert Elements<int>([]) == {} by {
        NoElements();
      }
    }
  }

  lemma NoElements()
    ensures Elements<int>([]) == {}
  {
  }

  /** Every file is accounted for once: no id is listed twice as canonical or both ways, and together the two
      tables have as many entries as there are files. */
  ghost predicate Accounts(s: State, files: nat) {
    && (forall i, j :: 0 <= i < j < |s.canonical| ==> s.canonical[i] != s.canonical[j])
    && (forall id :: id in s.canonical ==> id !in s.aliases)
    && |s.canonical| + |s.aliases| == files
  }

  lemma AccountedIds(s: State)
    requires forall i, j :: 0 <= i < j < |s.canonical| ==> s.canonical[i] != s.canonical[j]
    requires forall id :: id in s.canonical ==> id !in s.aliases
    ensures |Elements(s.canonical) + s.aliases.Keys| == |s.canonical| + |s.aliases|
  {
    DistinctBySize(s.canonical);
    assert Elements(s.canonical) !! s.aliases.Keys;
    assert |s.aliases.Keys| == |s.aliases|;
  }

  lemma CanonicalIsNoAlias<V>(vecs: seq<Expert<V>>, similar: (V, V) -> bool)
    requires Distinct(Ids(vecs))
    ensures var s := Cluster(vecs, similar, |vecs|); forall id :: id in s.canonical ==> id !in s.aliases
  {
    hide Cluster, First, Joins;
    var s := Cluster(vecs, similar, |vecs|);
    forall id | id in s.canonical
      ensures id !in s.aliases
    {
      var _ := EachHasItsPlace(vecs, similar, |vecs|, First(vecs, id));
    }
  }

  /** The clustering accounts for every file exactly when no two files carry the same id. File names can
      collide: `expert_1.bin` and `expert_01.bin` are both expert 1. */
  lemma AccountsExactlyForDistinctIds<V>(vecs: seq<Expert<V>>, similar: (V, V) -> bool)
    ensures Accounts(Cluster(vecs, similar, |vecs|), |vecs|) <==> Distinct(Ids(vecs))
  {
    hide Cluster, First, Known, Joins, Ids, Elements;
    var s := Cluster(vecs, similar, |vecs|);
    EveryIdPlaced(vecs, similar, |vecs|);
    assert vecs[..|vecs|] == vecs;
    DistinctBySize(Ids(vecs));
    if Distinct(Ids(vecs)) {
      CanonicalInScanOrder(vecs, similar, |vecs|);
      CanonicalIsNoAlias(vecs, similar);
      AccountedIds(s);
    } else if Accounts(s, |vecs|) {
      AccountedIds(s);
    }
  }

  // ----- Which way aliases point

  ghost predicate AscendingIds<V>(vecs: seq<Expert<V>>) {
    forall p, q :: 0 <= p < q < |vecs| ==> vecs[p].id < vecs[q].id
  }

  /** If the scan is ascending by id, every alias is to a smaller id. */
  lemma AscendingScanAliasesDown<V>(vecs: seq<Expert<V>>, similar: (V, V) -> bool)
    requires AscendingIds(vecs)
    ensures var s := Cluster(vecs, similar, |vecs|); forall id :: id in s.aliases ==> s.aliases[id] < id
  {
    ClustersAreSound(vecs, similar);
    CanonicalInScanOrder(vecs, similar, |vecs|);
  }

  /** Otherwise equal weights can make an alias to a larger id. The scan sorts file names, so expert 10 comes
      before expert 2. */
  lemma OtherScansCanAliasUp(ids: seq<int>, p: nat, q: nat) returns (vecs: seq<Expert<nat>>, similar: (nat, nat) -> bool)
    requires forall i, j :: 0 <= i < j < |ids| ==> ids[i] != ids[j]
    requires p < q < |ids| && ids[p] > ids[q]
    ensures |vecs| == |ids| && forall i :: 0 <= i < |ids| ==> vecs[i].id == ids[i]
    ensures var s := Cluster(vecs, similar, |vecs|); ids[q] in s.aliases && s.aliases[ids[q]] == ids[p] > ids[q]
  {
    hide Cluster, First, Known, Match;
    vecs := seq(|ids|, i requires 0 <= i < |ids| => Expert(ids[i], if i == q then p else i));
    similar := (v, c) => v == c;
    CanonicalInScanOrder(vecs, similar, |vecs|);
    FirstIsOwn(vecs, p);
    FirstIsOwn(vecs, q);
    var kp := EachHasItsPlace(vecs, similar, |vecs|, p);
    var kq := EachHasItsPlace(vecs, similar, |vecs|, q);
    var s := Cluster(vecs, similar, |vecs|);
    assert IsCanonical(vecs, similar, s, p, kp);
    assert Joins(vecs, similar, vecs[q].weights, s.canonical[kp]);
    assert IsAlias(vecs, similar, s, q, kq);
    assert vecs[First(vecs, s.canonical[kq])].weights == p;
  }
}
