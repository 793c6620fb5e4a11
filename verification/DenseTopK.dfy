/**
 Top-k and argmax over the rows of a dense weight. The score of a row (`row_dot`) is an input; the
 rows are scanned sequentially or split over tasks whose results are reduced by a tree of any shape.
 */
module DenseTopK {
  import opened Machine
  import opened Arithmetic
  import opened Options
  import opened Floats
  import opened Ranking

  const USIZE_MAX: nat := U64_SPAN - 1
  const MIN_TOTAL_FOR_PARALLEL: nat := 262_144
  const MIN_ELEMS_PER_TASK: nat := 65_536

  /** The candidates of rows `lo..hi`; empty when the range starts past its end. */
  function Rows(scores: seq<F32>, lo: nat, hi: nat): seq<Candidate>
    requires hi <= |scores|
    decreases hi
  {
    if hi <= lo then [] else Rows(scores, lo, hi - 1) + [Candidate(hi - 1, scores[hi - 1])]
  }

  lemma {:induction false} RowsSplit(scores: seq<F32>, lo: nat, mid: nat, hi: nat)
    requires lo <= mid <= hi <= |scores|
    ensures Rows(scores, lo, mid) + Rows(scores, mid, hi) == Rows(scores, lo, hi)
    decreases hi
  {
    if mid < hi {
      RowsSplit(scores, lo, mid, hi - 1);
    } else {
      assert Rows(scores, mid, hi) == [];
    }
  }

  lemma {:induction false} RowsAre(scores: seq<F32>, lo: nat, hi: nat)
    requires lo <= hi <= |scores|
    ensures |Rows(scores, lo, hi)| == hi - lo
    ensures forall i :: 0 <= i < hi - lo ==> Rows(scores, lo, hi)[i] == Candidate(lo + i, scores[lo + i])
    decreases hi
  {
    if lo < hi {
      RowsAre(scores, lo, hi - 1);
      assert Rows(scores, lo, hi) == Rows(scores, lo, hi - 1) + [Candidate(hi - 1, scores[hi - 1])];
    }
  }

  // ----- Splitting the rows over tasks

  /** `parallel_row_work`: how many tasks, or `None` to stay sequential. */
  function ParallelTasks(rows: nat, cols: nat, threads: nat, inWorker: bool): (tasks: Option<nat>)
    ensures tasks.Some? ==> 1 <= tasks.value <= rows
  {
    var total := rows * cols;
    if total >= U64_SPAN then None
    else if rows <= 1 || threads <= 1 || total < MIN_TOTAL_FOR_PARALLEL || inWorker then None
    else Some(Max(Min(Min(threads, Max(total / MIN_ELEMS_PER_TASK, 1)), rows), 1))
  }

  /** The rows are split exactly for 2^18 to 2^64 - 1 elements in at least two rows, with at least two threads and
      outside a worker: over as many tasks as there are threads, rows and full shares of 2^16 elements for. */
  lemma TasksAreMost(rows: nat, cols: nat, threads: nat, inWorker: bool)
    ensures var tasks, total := ParallelTasks(rows, cols, threads, inWorker), rows * cols;
      && (tasks.Some? <==> rows >= 2 && threads >= 2 && 0x4_0000 <= total < U64_SPAN && !inWorker)
      && (tasks.Some? ==> forall n: nat :: n <= tasks.value <==> n <= threads && n <= rows && n * 0x1_0000 <= total)
  {
  }

  function ChunkStart(rows: nat, tasks: nat, task: nat): nat
    requires tasks > 0
  {
    task * CeilDiv(rows, tasks)
  }

  function ChunkEnd(rows: nat, tasks: nat, task: nat): nat
    requires tasks > 0
  {
    Min(ChunkStart(rows, tasks, task) + CeilDiv(rows, tasks), rows)
  }

  /** The rows task `task` scans. */
  function Chunk(scores: seq<F32>, tasks: nat, task: nat): seq<Candidate>
    requires tasks > 0
  {
    Rows(scores, ChunkStart(|scores|, tasks, task), ChunkEnd(|scores|, tasks, task))
  }

  function Chunks(scores: seq<F32>, tasks: nat, which: seq<nat>): seq<Candidate>
    requires tasks > 0
  {
    if which == [] then [] else Chunks(scores, tasks, which[..|which| - 1]) + Chunk(scores, tasks, which[|which| - 1])
  }

  function UpTo(n: nat): (s: seq<nat>)
    ensures |s| == n
  {
    if n == 0 then [] else UpTo(n - 1) + [n - 1]
  }

  /** The first `n` chunks are the rows up to where chunk `n` would start, cut at the last row, even
      when trailing chunks start past the end. */
  lemma {:induction false} FirstChunks(scores: seq<F32>, tasks: nat, n: nat)
    requires tasks > 0
    ensures Chunks(scores, tasks, UpTo(n)) == Rows(scores, 0, Min(ChunkStart(|scores|, tasks, n), |scores|))
  {
    hide CeilDiv, Rows;
    if n > 0 {
      FirstChunks(scores, tasks, n - 1);
      assert UpTo(n)[..n - 1] == UpTo(n - 1);
      OneMoreChunk(scores, tasks, n - 1);
    } else {
      NoRows(scores, 0, 0);
    }
  }

  lemma NoRows(scores: seq<F32>, lo: nat, hi: nat)
    requires hi <= lo && hi <= |scores|
    ensures Rows(scores, lo, hi) == []
  {
  }

  lemma NextChunkStart(rows: nat, tasks: nat, n: nat)
    requires tasks > 0
    ensures ChunkStart(rows, tasks, n + 1) == ChunkStart(rows, tasks, n) + CeilDiv(rows, tasks)
  {
  }

  lemma OneMoreChunk(scores: seq<F32>, tasks: nat, n: nat)
    requires tasks > 0
    ensures Rows(scores, 0, Min(ChunkStart(|scores|, tasks, n), |scores|)) + Chunk(scores, tasks, n)
         == Rows(scores, 0, Min(ChunkStart(|scores|, tasks, n + 1), |scores|))
  {
    hide CeilDiv, Rows;
    hide ChunkStart;
    var rows, size := |scores|, CeilDiv(|scores|, tasks);
    var start := ChunkStart(rows, tasks, n);
    NextChunkStart(rows, tasks, n);
    if start <= rows {
      RowsSplit(scores, 0, start, Min(start + size, rows));
    } else {
      NoRows(scores, start, Min(start + size, rows));
    }
  }

  /** All chunks together are all rows, each exactly once and in order. */
  lemma ChunksCoverRows(scores: seq<F32>, tasks: nat)
    requires tasks > 0
    ensures Chunks(scores, tasks, UpTo(tasks)) == Rows(scores, 0, |scores|)
  {
    FirstChunks(scores, tasks, tasks);
    CeilDivCovers(|scores|, tasks);
  }

  lemma CeilDivCovers(a: nat, b: nat)
    requires b > 0
    ensures b * CeilDiv(a, b) >= a
  {
    var sum := a + b - 1;
    assert sum == b * (sum / b) + sum % b;
  }

  /** A fork-join reduction over tasks; the runtime may insert identities anywhere. */
  datatype Reduction = Identity | Task(task: nat) | Join(left: Reduction, right: Reduction) {
    function Tasks(): seq<nat> {
      match this
      case Identity => []
      case Task(t) => [t]
      case Join(l, r) => l.Tasks() + r.Tasks()
    }
  }

  lemma {:induction false} ChunksConcat(scores: seq<F32>, tasks: nat, a: seq<nat>, b: seq<nat>)
    requires tasks > 0
    ensures Chunks(scores, tasks, a + b) == Chunks(scores, tasks, a) + Chunks(scores, tasks, b)
  {
    hide Chunk;
    if b == [] {
      assert a + b == a;
    } else {
      ChunksConcat(scores, tasks, a, b[..|b| - 1]);
      assert (a + b)[..|a + b| - 1] == a + b[..|b| - 1];
    }
  }

  lemma OneChunk(scores: seq<F32>, tasks: nat, t: nat)
    requires tasks > 0
    ensures Chunks(scores, tasks, [t]) == Chunk(scores, tasks, t)
  {
    assert [t][..0] == [];
  }

  // ----- top_k_logits

  method TopKRange(scores: seq<F32>, limit: nat, start: nat, end: nat) returns (top: seq<Candidate>)
    requires end <= |scores|
    ensures top == TopK(Rows(scores, start, end), limit)
  {
    top := [];
    if start >= end {
      return;
    }
    for row := start to end
      invariant top == TopK(Rows(scores, start, row), limit)
    {
      CutThenInsert(Sort(Rows(scores, start, row)), Candidate(row, scores[row]), limit);
      top := InsertBounded(top, limit, Candidate(row, scores[row]));
    }
  }

  /** The reduction step: `for (row, score) in b { insert_top_candidate(&mut a, …) }`. */
  method JoinTopK(a: seq<Candidate>, b: seq<Candidate>, limit: nat) returns (top: seq<Candidate>)
    requires |a| <= limit
    ensures top == Stream(a, limit, b)
  {
    top := a;
    for i := 0 to |b|
      invariant |top| <= limit && top == Stream(a, limit, b[..i])
    {
      top := InsertBounded(top, limit, b[i]);
      assert b[..i + 1][..i] == b[..i];
    }
    assert b[..|b|] == b;
  }

  method ReduceTopK(tree: Reduction, scores: seq<F32>, limit: nat, tasks: nat) returns (top: seq<Candidate>)
    requires tasks > 0
    ensures top == TopK(Chunks(scores, tasks, tree.Tasks()), limit)
  {
    match tree
    case Identity =>
      top := [];
    case Task(t) =>
      OneChunk(scores, tasks, t);
      top := TopKRange(scores, limit, ChunkStart(|scores|, tasks, t), ChunkEnd(|scores|, tasks, t));
    case Join(left, right) =>
      var a := ReduceTopK(left, scores, limit, tasks);
      var b := ReduceTopK(right, scores, limit, tasks);
      top := JoinTopK(a, b, limit);
      JoinIsTopK(Chunks(scores, tasks, left.Tasks()), Chunks(scores, tasks, right.Tasks()), limit);
      ChunksConcat(scores, tasks, left.Tasks(), right.Tasks());
  }

  /** Sequential or parallel, whatever the reduction tree: sort all rows by score descending and id
      ascending, and take `k`. */
  method TopKLogits(scores: seq<F32>, k: nat, cols: nat, threads: nat, inWorker: bool, tree: Reduction)
    returns (top: seq<Candidate>)
    requires var work := ParallelTasks(|scores|, cols, threads, inWorker);
      work.Some? ==> tree.Tasks() == UpTo(work.value)
    ensures top == TopK(Rows(scores, 0, |scores|), k)
  {
    var rows := Rows(scores, 0, |scores|);
    RowsAre(scores, 0, |scores|);
    if k == 0 || |scores| == 0 {
      return [];
    }
    var limit := Min(k, |scores|);
    assert TopK(rows, limit) == TopK(rows, k);
    var work := ParallelTasks(|scores|, cols, threads, inWorker);
    if work.Some? {
      ChunksCoverRows(scores, work.value);
      top := ReduceTopK(tree, scores, limit, work.value);
    } else {
      top := TopKRange(scores, limit, 0, |scores|);
    }
  }

  /** The rows ahead of row `r`: a larger score, or as large a score in an earlier row. */
  ghost function RowsAhead(scores: seq<F32>, r: nat): set<nat>
    requires r < |scores|
  {
    set i: nat | i < |scores| && (scores[i] > scores[r] || (scores[i] == scores[r] && i < r))
  }

  /** The rows of the top `k`: a row is in it exactly when fewer than `k` rows are ahead of it. */
  lemma RowInTopK(scores: seq<F32>, k: nat, r: nat)
    requires r < |scores|
    ensures Candidate(r, scores[r]) in TopK(Rows(scores, 0, |scores|), k) <==> |RowsAhead(scores, r)| < k
  {
    hide Rows, Sort;
    var rows := Rows(scores, 0, |scores|);
    RowsAre(scores, 0, |scores|);
    assert rows[r] in rows;
    TopKExactlyWhen(rows, k, rows[r]);
    forall c
      ensures c in Ahead(rows, rows[r]) <==> c.id in RowsAhead(scores, r) && c.score == scores[c.id]
    {
      if c.id < |scores| {
        assert rows[c.id] in rows;
      }
    }
    forall i | i in RowsAhead(scores, r)
      ensures exists c :: c in Ahead(rows, rows[r]) && c.id == i
    {
      assert Candidate(i, scores[i]) in Ahead(rows, rows[r]);
    }
    AsManyIds(RowsAhead(scores, r), Ahead(rows, rows[r]));
  }

  // ----- greedy_argmax

  const NoRow: Candidate := Candidate(USIZE_MAX, NEG_INF)

  function BestPair(a: Candidate, b: Candidate): Candidate { if Better(a, b) then a else b }

  method ArgmaxRange(scores: seq<F32>, start: nat, end: nat) returns (best: Candidate)
    requires end <= |scores|
    ensures IsBest(best, [NoRow] + Rows(scores, start, end))
  {
    best := NoRow;
    if start >= end {
      return;
    }
    for row := start to end
      invariant IsBest(best, [NoRow] + Rows(scores, start, row))
    {
      var score := scores[row];
      if score > best.score || (score == best.score && row < best.id) {
        best := Candidate(row, score);
      }
      assert [NoRow] + Rows(scores, start, row + 1) == ([NoRow] + Rows(scores, start, row)) + [Candidate(row, score)];
    }
  }

  lemma BestPairIsBest(a: Candidate, b: Candidate, left: seq<Candidate>, right: seq<Candidate>)
    requires IsBest(a, [NoRow] + left) && IsBest(b, [NoRow] + right)
    ensures IsBest(BestPair(a, b), [NoRow] + (left + right))
  {
    var all := [NoRow] + (left + right);
    forall c | c in all
      ensures !Better(c, BestPair(a, b))
    {
      assert c in [NoRow] + left || c in [NoRow] + right;
    }
  }

  method ReduceArgmax(tree: Reduction, scores: seq<F32>, tasks: nat) returns (best: Candidate)
    requires tasks > 0
    ensures IsBest(best, [NoRow] + Chunks(scores, tasks, tree.Tasks()))
  {
    match tree
    case Identity =>
      best := NoRow;
    case Task(t) =>
      OneChunk(scores, tasks, t);
      best := ArgmaxRange(scores, ChunkStart(|scores|, tasks, t), ChunkEnd(|scores|, tasks, t));
    case Join(left, right) =>
      var a := ReduceArgmax(left, scores, tasks);
      var b := ReduceArgmax(right, scores, tasks);
      best := BestPair(a, b);
      BestPairIsBest(a, b, Chunks(scores, tasks, left.Tasks()), Chunks(scores, tasks, right.Tasks()));
      ChunksConcat(scores, tasks, left.Tasks(), right.Tasks());
  }

  /** The row at the head of the ranking. */
  function BestRow(scores: seq<F32>): nat
    requires scores != []
  {
    RowsAre(scores, 0, |scores|);
    Sort(Rows(scores, 0, |scores|))[0].id
  }

  /** The row at the head of the ranking beats every other row. */
  lemma BestRowWins(scores: seq<F32>)
    requires scores != []
    ensures BestRow(scores) < |scores|
    ensures forall i :: 0 <= i < |scores| ==>
      !Better(Candidate(i, scores[i]), Candidate(BestRow(scores), scores[BestRow(scores)]))
  {
    var rows := Rows(scores, 0, |scores|);
    RowsAre(scores, 0, |scores|);
    FirstIsBest(rows);
    forall i | 0 <= i < |scores|
      ensures !Better(Candidate(i, scores[i]), Sort(rows)[0])
    {
      assert rows[i] in rows;
    }
  }

  /** What `greedy_argmax` returns: the head of the ranking, as a `u32`, unless every score is below
      negative infinity in the total order (a NaN with the sign bit set) or there is no row. */
  function ArgmaxResult(scores: seq<F32>): nat {
    if scores != [] && scores[BestRowIndex(scores)] >= NEG_INF then BestRow(scores) % U32_SPAN else 0
  }

  function BestRowIndex(scores: seq<F32>): (r: nat)
    requires scores != []
    ensures r < |scores| && r == BestRow(scores)
  {
    BestRowWins(scores);
    BestRow(scores)
  }

  /** The best of the rows and the starting value: the head of the ranking, or the starting value. */
  lemma BestOfAll(scores: seq<F32>, best: Candidate)
    requires |scores| <= USIZE_MAX && IsBest(best, [NoRow] + Rows(scores, 0, |scores|))
    ensures scores == [] ==> best == NoRow
    ensures scores != [] ==> best == WinnerOr(scores, NoRow)
  {
    hide Rows, BestRow, BestRowIndex, IsBest;
    var rows := Rows(scores, 0, |scores|);
    RowsAre(scores, 0, |scores|);
    if scores == [] {
      assert IsBest(best, [NoRow]) by { assert [NoRow] + rows == [NoRow]; }
      OnlyOne(best);
    } else {
      BestRowWins(scores);
      BestAgrees(rows, BestRowIndex(scores), best);
    }
  }

  lemma OnlyOne(best: Candidate)
    requires IsBest(best, [NoRow])
    ensures best == NoRow
  {
  }

  lemma BestAgrees(rows: seq<Candidate>, b: nat, best: Candidate)
    requires b < |rows| && IsBest(best, [NoRow] + rows)
    requires forall i :: 0 <= i < |rows| ==> !Better(rows[i], rows[b]) && rows[i].id < USIZE_MAX
    ensures best == if rows[b].score >= NEG_INF then rows[b] else NoRow
  {
    var all := [NoRow] + rows;
    assert all[0] == NoRow && all[b + 1] == rows[b];
    assert NoRow in all && rows[b] in all;
    if best != NoRow {
      var i :| 0 <= i < |all| && all[i] == best;
      assert best == rows[i - 1];
    }
  }

  function WinnerOr(scores: seq<F32>, none: Candidate): Candidate
    requires scores != []
  {
    var b := BestRowIndex(scores);
    if scores[b] >= NEG_INF then Candidate(b, scores[b]) else none
  }

  method GreedyArgmax(scores: seq<F32>, cols: nat, threads: nat, inWorker: bool, tree: Reduction) returns (id: nat)
    requires |scores| <= USIZE_MAX
    requires var work := ParallelTasks(|scores|, cols, threads, inWorker);
      work.Some? ==> tree.Tasks() == UpTo(work.value)
    ensures id == ArgmaxResult(scores)
  {
    var best;
    var work := ParallelTasks(|scores|, cols, threads, inWorker);
    if work.Some? {
      ChunksCoverRows(scores, work.value);
      best := ReduceArgmax(tree, scores, work.value);
    } else {
      best := ArgmaxRange(scores, 0, |scores|);
    }
    BestOfAll(scores, best);
    id := if best.id == USIZE_MAX then 0 else best.id % U32_SPAN;
  }

  /** No row has a larger score than row `b`, nor an equal one earlier: row `b` heads the ranking. */
  predicate Heads(scores: seq<F32>, b: nat) {
    b < |scores| && forall i :: 0 <= i < |scores| ==> scores[i] < scores[b] || (scores[i] == scores[b] && b <= i)
  }

  /** Exactly one row heads the ranking. */
  lemma BestRowHeads(scores: seq<F32>, b: nat)
    requires scores != []
    ensures Heads(scores, b) <==> b == BestRow(scores)
  {
    BestRowWins(scores);
    var best := BestRow(scores);
    if Heads(scores, b) {
      assert !Better(Candidate(b, scores[b]), Candidate(best, scores[best]));
    }
    if b == best {
      forall i | 0 <= i < |scores|
        ensures scores[i] < scores[b] || (scores[i] == scores[b] && b <= i)
      {
        assert !Better(Candidate(i, scores[i]), Candidate(best, scores[best]));
      }
    }
  }

  /** `greedy_argmax` is the head of the ranking exactly when some score is at least negative infinity and a row
      below 2^32 heads the ranking, or row 0 does. */
  lemma ArgmaxIsHeadOfRanking(scores: seq<F32>)
    requires scores != []
    ensures Heads(scores, ArgmaxResult(scores)) <==>
      || ((exists i :: 0 <= i < |scores| && scores[i] >= NEG_INF) && exists b :: 0 <= b < U32_SPAN && Heads(scores, b))
      || Heads(scores, 0)
  {
    var best := BestRow(scores);
    BestRowWins(scores);
    BestRowHeads(scores, best);
    BestRowHeads(scores, ArgmaxResult(scores));
    BestRowHeads(scores, 0);
    hide BestRow, Rows;
    if b: nat :| b < U32_SPAN && Heads(scores, b) {
      BestRowHeads(scores, b);
    }
  }

  /** The row returned, 0 unless some score is at least negative infinity, and cut to 32 bits. */
  lemma ArgmaxIs(scores: seq<F32>, b: nat)
    requires Heads(scores, b)
    ensures ArgmaxResult(scores) == if scores[b] >= NEG_INF then b % U32_SPAN else 0
  {
    BestRowHeads(scores, b);
  }

  /** Two rows that both score a negative NaN: row 1 is the larger in the total order, row 0 is returned. */
  lemma ArgmaxMissesNegativeNans()
    ensures var scores: seq<F32> := [-0x8000_0000, NEG_INF - 1];
      IsNan(scores[0]) && IsNan(scores[1]) && BestRow(scores) == 1 && ArgmaxResult(scores) == 0
  {
    var scores: seq<F32> := [-0x8000_0000, NEG_INF - 1];
    BestRowWins(scores);
    assert !Better(Candidate(1, scores[1]), Candidate(BestRow(scores), scores[BestRow(scores)]));
  }
}
