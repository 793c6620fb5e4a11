/**
 Ranking scored ids: higher score first, then lower id. The engine never sorts; it keeps a bounded
 list and inserts into it. Here is that insertion, the sort it stands for, and why the two agree.
 */
module Ranking {
  import opened Floats
  import opened Sequences

  datatype Candidate = Candidate(id: nat, score: F32)

  predicate Better(a: Candidate, b: Candidate) {
    a.score > b.score || (a.score == b.score && a.id < b.id)
  }

  function Take<T>(s: seq<T>, k: nat): (r: seq<T>)
    ensures |r| == if |s| <= k then |s| else k
  {
    if |s| <= k then s else s[..k]
  }

  /** The first place whose occupant `c` beats, or the end. */
  function Position(s: seq<Candidate>, c: Candidate): (p: nat)
    ensures p <= |s|
    ensures p < |s| ==> Better(c, s[p])
    ensures forall i :: 0 <= i < p ==> !Better(c, s[i])
  {
    if s == [] then 0 else if Better(c, s[0]) then 0 else 1 + Position(s[1..], c)
  }

  function Insert(s: seq<Candidate>, c: Candidate): seq<Candidate> {
    s[..Position(s, c)] + [c] + s[Position(s, c)..]
  }

  /** The scan, the insertion and the cut shared by `insert_top_candidate`, `insert_top_group` and
      `insert_top_expert`. */
  method InsertBounded(top: seq<Candidate>, limit: nat, c: Candidate) returns (r: seq<Candidate>)
    requires |top| <= limit
    ensures r == Take(Insert(top, c), limit)
  {
    var pos := 0;
    while pos < |top| && !Better(c, top[pos])
      invariant pos <= |top|
      invariant forall i :: 0 <= i < pos ==> !Better(c, top[i])
    {
      pos := pos + 1;
    }
    assert pos == Position(top, c);
    if pos < |top| {
      r := top[..pos] + [c] + top[pos..];
      if |r| > limit {
        r := r[..|r| - 1];
      }
    } else if |top| < limit {
      r := top + [c];
    } else {
      r := top;
    }
  }

  // ----- The reference: sort, then take

  ghost predicate Ranked(s: seq<Candidate>) {
    forall i, j :: 0 <= i < j < |s| ==> !Better(s[j], s[i])
  }

  function Sort(cs: seq<Candidate>): (r: seq<Candidate>)
    ensures |r| == |cs|
  {
    if cs == [] then [] else Insert(Sort(cs[..|cs| - 1]), cs[|cs| - 1])
  }

  function TopK(cs: seq<Candidate>, k: nat): seq<Candidate> { Take(Sort(cs), k) }

  lemma {:induction false} SortIsRanked(cs: seq<Candidate>)
    ensures Ranked(Sort(cs))
  {
    if cs != [] {
      SortIsRanked(cs[..|cs| - 1]);
    }
  }

  lemma {:induction false} SortIsPermutation(cs: seq<Candidate>)
    ensures multiset(Sort(cs)) == multiset(cs)
  {
    if cs != [] {
      var s, c := Sort(cs[..|cs| - 1]), cs[|cs| - 1];
      SortIsPermutation(cs[..|cs| - 1]);
      assert cs == cs[..|cs| - 1] + [c];
      assert s == s[..Position(s, c)] + s[Position(s, c)..];
    }
  }

  lemma WithoutHead(s: seq<Candidate>)
    requires s != []
    ensures multiset(s[1..]) == multiset(s) - multiset{s[0]}
    ensures Ranked(s) ==> Ranked(s[1..])
  {
    assert s == [s[0]] + s[1..];
  }

  /** Any ranked permutation is *the* ranking: whatever sort is used, the result is the same. */
  lemma {:induction false} RankingIsUnique(s: seq<Candidate>, t: seq<Candidate>)
    requires Ranked(s) && Ranked(t) && multiset(s) == multiset(t)
    ensures s == t
  {
    if s == [] {
      assert multiset(t) == multiset{};
    } else {
      assert s[0] in multiset(s);
      assert |multiset(t)| == |multiset(s)|;
      assert t[0] in multiset(t);
      assert s[0] in t && t[0] in s;
      assert s[0] == t[0];
      WithoutHead(s);
      WithoutHead(t);
      RankingIsUnique(s[1..], t[1..]);
    }
  }

  lemma SortIgnoresOrder(a: seq<Candidate>, b: seq<Candidate>)
    requires multiset(a) == multiset(b)
    ensures Sort(a) == Sort(b)
  {
    SortIsRanked(a);
    SortIsRanked(b);
    SortIsPermutation(a);
    SortIsPermutation(b);
    RankingIsUnique(Sort(a), Sort(b));
  }

  /** The reference lists the larger score first, and the smaller id first among equal scores. */
  lemma SortIsOrdered(cs: seq<Candidate>, i: nat, j: nat)
    requires i < j < |cs|
    ensures var a, b := Sort(cs)[i], Sort(cs)[j]; a.score > b.score || (a.score == b.score && a.id <= b.id)
  {
    SortIsRanked(cs);
    assert !Better(Sort(cs)[j], Sort(cs)[i]);
  }

  /** The candidates that score higher than `c`, or as high with a smaller id. */
  ghost function Ahead(cs: seq<Candidate>, c: Candidate): set<Candidate> {
    set d | d in cs && (d.score > c.score || (d.score == c.score && d.id < c.id))
  }

  lemma SortIsDistinct(cs: seq<Candidate>)
    requires Distinct(cs)
    ensures Distinct(Sort(cs)) && Elements(Sort(cs)) == Elements(cs)
  {
    SortIsPermutation(cs);
    hide Sort, Distinct;
    SameElements(Sort(cs), cs);
    DistinctBySize(cs);
    DistinctBySize(Sort(cs));
  }

  lemma SameElements(s: seq<Candidate>, t: seq<Candidate>)
    requires multiset(s) == multiset(t)
    ensures Elements(s) == Elements(t)
  {
    forall c
      ensures c in s <==> c in t
    {
      assert c in s <==> c in multiset(t);
    }
  }

  /** Place `p` of the ranking has exactly `p` candidates ahead of it. */
  lemma PlaceIsCount(cs: seq<Candidate>, p: nat)
    requires Distinct(cs) && p < |cs|
    ensures |Ahead(cs, Sort(cs)[p])| == p
  {
    hide Sort;
    SortIsDistinct(cs);
    var s := Sort(cs);
    forall d
      ensures d in Ahead(cs, s[p]) <==> d in Elements(s[..p])
    {
      if d in cs {
        assert d in Elements(s);
        var i :| 0 <= i < |s| && s[i] == d;
        if i != p {
          SortIsOrdered(cs, if i < p then i else p, if i < p then p else i);
        }
        assert i >= p ==> d !in s[..p];
        assert i < p ==> s[..p][i] == d;
      } else {
        assert d !in Elements(s);
      }
    }
    DistinctBySize(s[..p]);
    assert Ahead(cs, s[p]) == Elements(s[..p]);
  }

  /** The reference reading of the top `k`: a candidate is in it exactly when fewer than `k` are ahead of it. */
  lemma TopKExactlyWhen(cs: seq<Candidate>, k: nat, c: Candidate)
    requires Distinct(cs) && c in cs
    ensures c in TopK(cs, k) <==> |Ahead(cs, c)| < k
  {
    hide Sort;
    SortIsDistinct(cs);
    var s := Sort(cs);
    assert c in Elements(s);
    var p :| 0 <= p < |s| && s[p] == c;
    PlaceIsCount(cs, p);
    assert p < k ==> Take(s, k)[p] == c;
  }

  /** As many ids as candidates, when each id is that of exactly one candidate. */
  lemma {:induction false} AsManyIds(ids: set<nat>, cs: set<Candidate>)
    requires forall c :: c in cs ==> c.id in ids
    requires forall i :: i in ids ==> exists c :: c in cs && c.id == i
    requires forall c, d :: c in cs && d in cs && c.id == d.id ==> c == d
    ensures |ids| == |cs|
    decreases cs
  {
    if ids == {} {
      assert forall c :: c in cs ==> c.id in ids;
      assert cs == {};
    } else {
      var i :| i in ids;
      var c :| c in cs && c.id == i;
      forall j | j in ids - {i}
        ensures exists d :: d in cs - {c} && d.id == j
      {
        var d :| d in cs && d.id == j;
        assert d in cs - {c};
      }
      AsManyIds(ids - {i}, cs - {c});
    }
  }

  // ----- Streaming equals sorting

  /** Insert `cs` one after the other into a list bounded by `limit`. */
  function Stream(top: seq<Candidate>, limit: nat, cs: seq<Candidate>): seq<Candidate> {
    if cs == [] then top else Take(Insert(Stream(top, limit, cs[..|cs| - 1]), cs[|cs| - 1]), limit)
  }

  /** What was cut off before an insertion cannot matter after it. */
  lemma CutThenInsert(s: seq<Candidate>, c: Candidate, k: nat)
    ensures Take(Insert(Take(s, k), c), k) == Take(Insert(s, c), k)
  {
    if |s| > k {
      var p, q := Position(s, c), Position(s[..k], c);
      if p < k {
        assert s[..k][p] == s[p];
        assert q == p;
        assert Insert(s[..k], c)[..k] == Insert(s, c)[..k];
      } else {
        assert forall i :: 0 <= i < k ==> s[..k][i] == s[i];
        assert q == k;
        assert Insert(s[..k], c)[..k] == Insert(s, c)[..k];
      }
    }
  }

  /** A bounded stream started from the top `k` of `a` ends with the top `k` of `a` and `cs`. */
  lemma {:induction false} StreamIsTopK(a: seq<Candidate>, k: nat, cs: seq<Candidate>)
    ensures Stream(TopK(a, k), k, cs) == TopK(a + cs, k)
  {
    if cs == [] {
      assert a + cs == a;
    } else {
      var front, last := cs[..|cs| - 1], cs[|cs| - 1];
      StreamIsTopK(a, k, front);
      assert (a + cs)[..|a + cs| - 1] == a + front;
      CutThenInsert(Sort(a + front), last, k);
    }
  }

  /** A candidate that `|t|` listed ones are not beaten by ranks after all of them. */
  lemma PositionPast(s: seq<Candidate>, t: seq<Candidate>, c: Candidate)
    requires Ranked(s) && multiset(t) <= multiset(s)
    requires forall i :: 0 <= i < |t| ==> !Better(c, t[i])
    ensures Position(s, c) >= |t|
  {
    var p := Position(s, c);
    assert s == s[..p] + s[p..];
    forall x
      ensures multiset(t)[x] <= multiset(s[..p])[x]
    {
      if multiset(t)[x] > 0 {
        assert x in t;
        if x in s[p..] {
          var j :| 0 <= j < |s[p..]| && s[p..][j] == x;
          assert !Better(s[p + j], s[p]) || j == 0;
          assert Better(c, x);
        }
        assert multiset(s[p..])[x] == 0;
      }
    }
    assert multiset(t) <= multiset(s[..p]);
    assert multiset(s[..p]) == multiset(t) + (multiset(s[..p]) - multiset(t));
    assert |multiset(s[..p])| == p && |multiset(t)| == |t|;
  }

  /** Candidates that rank after `k` others already present never reach the top `k`. */
  lemma {:induction false} LosersDoNotMatter(a: seq<Candidate>, t: seq<Candidate>, rest: seq<Candidate>, k: nat)
    requires |t| == k
    requires forall i, j :: 0 <= i < |t| && 0 <= j < |rest| ==> !Better(rest[j], t[i])
    ensures TopK(a + t + rest, k) == TopK(a + t, k)
  {
    hide Better, Insert;
    if rest == [] {
      assert a + t + rest == a + t;
    } else {
      var front, last := rest[..|rest| - 1], rest[|rest| - 1];
      LosersDoNotMatter(a, t, front, k);
      var cs := a + t + front;
      assert multiset(t) <= multiset(cs) by {
        assert multiset(cs) == multiset(a) + multiset(t) + multiset(front);
      }
      Outranked(cs, t, last, k);
      assert a + t + rest == cs + [last] && (cs + [last])[..|cs|] == cs;
    }
  }

  lemma Outranked(cs: seq<Candidate>, t: seq<Candidate>, c: Candidate, k: nat)
    requires |t| == k && multiset(t) <= multiset(cs)
    requires forall i :: 0 <= i < |t| ==> !Better(c, t[i])
    ensures Take(Insert(Sort(cs), c), k) == Take(Sort(cs), k)
  {
    SortIsRanked(cs);
    SortIsPermutation(cs);
    PositionPast(Sort(cs), t, c);
  }

  /** The reduction step: inserting the other side's top `k` is as good as inserting all of it. */
  lemma JoinIsTopK(a: seq<Candidate>, b: seq<Candidate>, k: nat)
    ensures Stream(TopK(a, k), k, TopK(b, k)) == TopK(a + b, k)
  {
    var t := TopK(b, k);
    StreamIsTopK(a, k, t);
    SortIsPermutation(b);
    SortIsRanked(b);
    if |b| <= k {
      SortIgnoresOrder(a + t, a + b);
    } else {
      var rest := Sort(b)[k..];
      TailPermutes(a, b, k);
      SortIgnoresOrder(a + t + rest, a + b);
      LosersDoNotMatter(a, t, rest, k);
    }
  }

  lemma TailPermutes(a: seq<Candidate>, b: seq<Candidate>, k: nat)
    requires k <= |b|
    ensures multiset(a + Sort(b)[..k] + Sort(b)[k..]) == multiset(a + b)
  {
    SortIsPermutation(b);
    hide Sort;
    var s := Sort(b);
    assert a + s[..k] + s[k..] == a + s;
    assert multiset(a + s) == multiset(a) + multiset(s) && multiset(a + b) == multiset(a) + multiset(b);
  }

  // ----- The single best

  /** `b` is in `cs` and nothing in `cs` beats it. */
  ghost predicate IsBest(b: Candidate, cs: seq<Candidate>) {
    b in cs && forall c :: c in cs ==> !Better(c, b)
  }

  lemma FirstIsBest(cs: seq<Candidate>)
    requires cs != []
    ensures IsBest(Sort(cs)[0], cs)
  {
    SortIsRanked(cs);
    SortIsPermutation(cs);
    var s := Sort(cs);
    assert s[0] in multiset(cs);
    forall c | c in cs
      ensures !Better(c, s[0])
    {
      assert c in multiset(s);
      var j :| 0 <= j < |s| && s[j] == c;
    }
  }
}
