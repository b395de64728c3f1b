/**
 * The half-epoch row-update machinery of lenskit's explicit-feedback ALS
 * (`BiasedMF`): each row of the `left` factor matrix is re-solved against its
 * stored rating entries, in fixed-size chunks when there are more than 50
 * rows, and the finished blocks are written back into `left` while the squared
 * change is accumulated. The regularised Cholesky solve of one row is an
 * opaque, possibly failing function of that row's entries; the smaller rules
 * of `BiasedMF` (bias choice, cold-start input filtering, score finalisation)
 * close the module.
 */
module ExplicitAls {
  import opened Results
  import opened PyInt
  import Vocab

  /** One row of a dense factor matrix: an entity's feature vector. */
  type Row = seq<real>

  /** The stored (column, value) entries of one row of the sparse rating matrix. */
  type Entries = seq<(nat, real)>

  /**
   * The solve of one row (`_train_solve_row` against this half-epoch's fixed
   * `right` matrix and regulariser): `None` when the Cholesky factorisation
   * fails, which raises RuntimeError.
   */
  type RowSolver = Entries -> Option<Row>

  datatype HalfEpochError =
    | SolveFailed    // RuntimeError from a failed Cholesky factorisation
    | ZeroChunkSize  // ValueError from `range(0, nrows, 0)`

  /** Row counts up to this run sequentially, without chunking. */
  const SequentialLimit: nat := 50

  // ---------------------------------------------------------------------
  // Per-row semantics

  /** The solve of a row with entries fails. Rows without entries are never solved. */
  predicate Fails(solve: RowSolver, e: Entries) {
    |e| > 0 && solve(e).None?
  }

  /** A row's new value: unchanged without entries, otherwise the solver's result. */
  function SolvedRow(solve: RowSolver, e: Entries, prev: Row): Row {
    if |e| == 0 then prev
    else match solve(e)
      case Some(r) => r
      case None => prev
  }

  predicate BlockFails(solve: RowSolver, m: seq<Entries>, start: nat, end: nat)
    requires start <= end <= |m|
  {
    exists i :: start <= i < end && Fails(solve, m[i])
  }

  /** The new values of rows `[start, end)`, when none of them fails. */
  function SolvedBlock(solve: RowSolver, m: seq<Entries>, prev: seq<Row>, start: nat, end: nat): seq<Row>
    requires start <= end <= |m| == |prev|
  {
    seq(end - start, k requires 0 <= k < end - start => SolvedRow(solve, m[start + k], prev[start + k]))
  }

  /** What `_train_update_rows(ctx, start, end)` returns or raises. */
  function BlockOutcome(solve: RowSolver, m: seq<Entries>, prev: seq<Row>, start: nat, end: nat): (r: Result<seq<Row>, HalfEpochError>)
    requires start <= end <= |m| == |prev|
    ensures r.Ok? <==> forall i :: start <= i < end ==> !Fails(solve, m[i])
    ensures r.Err? ==> r.error == SolveFailed
    ensures r.Ok? ==> |r.value| == end - start
  {
    if BlockFails(solve, m, start, end) then Err(SolveFailed)
    else
      var b := SolvedBlock(solve, m, prev, start, end);
      assert forall i :: start <= i < end ==> b[i - start] == SolvedRow(solve, m[i], prev[i]);
      Ok(b)
  }

  lemma SolvedBlockSplit(solve: RowSolver, m: seq<Entries>, prev: seq<Row>, a: nat, b: nat, c: nat)
    requires a <= b <= c <= |m| == |prev|
    ensures SolvedBlock(solve, m, prev, a, c) == SolvedBlock(solve, m, prev, a, b) + SolvedBlock(solve, m, prev, b, c)
  {
  }

  // ---------------------------------------------------------------------
  // Training context

  /** `TrainContext`: the factor matrix being solved and what it is solved against. */
  class TrainContext {
    /** `left`: updated in place, one row per entity on this axis. */
    const left: array<Row>
    /** `matrix`: the stored entries of each row. */
    const matrix: seq<Entries>
    const nrows: nat
    /** The row solve against `right` and `regI`. */
    const solve: RowSolver

    ghost predicate Valid() {
      left.Length == nrows && |matrix| == nrows
    }

    constructor(left: array<Row>, matrix: seq<Entries>, solve: RowSolver)
      requires left.Length == |matrix|
      ensures Valid()
      ensures this.left == left && this.matrix == matrix && this.solve == solve
    {
      this.left := left;
      this.matrix := matrix;
      this.nrows := |matrix|;
      this.solve := solve;
    }
  }

  /**
   * `_train_update_rows(ctx, start, end)`: a clone of `left[start:end]` in
   * which every row with entries is replaced by its solve; `left` itself is
   * only read.
   */
  method UpdateRows(ctx: TrainContext, start: nat, end: nat) returns (r: Result<seq<Row>, HalfEpochError>)
    requires ctx.Valid()
    requires start <= end <= ctx.nrows
    ensures r.Ok? <==> forall i :: start <= i < end ==> !Fails(ctx.solve, ctx.matrix[i])
    ensures r.Err? ==> r.error == SolveFailed
    ensures r.Ok? ==> |r.value| == end - start
    ensures r.Ok? ==> forall i :: start <= i < end ==>
      r.value[i - start] == if |ctx.matrix[i]| == 0 then ctx.left[i] else ctx.solve(ctx.matrix[i]).value
    ensures r == BlockOutcome(ctx.solve, ctx.matrix, ctx.left[..], start, end)
  {
    var result := new Row[end - start];
    forall k | 0 <= k < end - start {
      result[k] := ctx.left[start + k];
    }
    var i := start;
    while i < end
      invariant start <= i <= end
      invariant forall j :: start <= j < i ==> !Fails(ctx.solve, ctx.matrix[j])
      invariant forall j :: start <= j < i ==> result[j - start] == SolvedRow(ctx.solve, ctx.matrix[j], ctx.left[j])
      invariant forall j :: i <= j < end ==> result[j - start] == ctx.left[j]
    {
      var row := ctx.matrix[i];
      if |row| == 0 {
        i := i + 1;
        continue;
      }
      var v := ctx.solve(row);
      if v.None? {
        assert Fails(ctx.solve, ctx.matrix[i]);
        return Err(SolveFailed);
      }
      result[i - start] := v.value;
      i := i + 1;
    }
    assert result[..] == SolvedBlock(ctx.solve, ctx.matrix, ctx.left[..], start, end);
    return Ok(result[..]);
  }

  /** `ctx.left[start:start+len(block), :] = block`. */
  method Commit(ctx: TrainContext, start: nat, block: seq<Row>)
    requires ctx.Valid()
    requires start + |block| <= ctx.nrows
    modifies ctx.left
    ensures ctx.left[..] == old(ctx.left[..start]) + block + old(ctx.left[start + |block|..])
  {
    forall k | start <= k < start + |block| {
      ctx.left[k] := block[k - start];
    }
  }

  // ---------------------------------------------------------------------
  // Chunking

  /** The ranges `[s, min(s + size, n))` for `s` in `range(start, n, size)`. */
  function ChunksFrom(start: nat, n: nat, size: nat): seq<(nat, nat)>
    requires size >= 1
    decreases n - start
  {
    if start >= n then [] else [(start, Min(start + size, n))] + ChunksFrom(start + size, n, size)
  }

  /** The ranges of the chunk loop, `range(0, n, size)`. */
  function ChunkRanges(n: nat, size: nat): seq<(nat, nat)>
    requires size >= 1
  {
    ChunksFrom(0, n, size)
  }

  /**
   * `c` splits `[lo, hi)` into non-empty ranges of at most `size` rows, each
   * starting where the previous one ends.
   */
  predicate IsChunking(c: seq<(nat, nat)>, lo: nat, hi: nat, size: nat) {
    && (|c| == 0 <==> lo == hi)
    && (|c| > 0 ==> c[0].0 == lo && c[|c| - 1].1 == hi)
    && (forall j :: 0 <= j < |c| ==> c[j].0 < c[j].1 <= c[j].0 + size && c[j].1 <= hi)
    && (forall j :: 0 <= j < |c| - 1 ==> c[j].1 == c[j + 1].0)
  }

  /** Row `i` lies in the `j`-th range of `c`. */
  predicate InChunk(c: seq<(nat, nat)>, j: nat, i: nat)
    requires j < |c|
  {
    c[j].0 <= i < c[j].1
  }

  /** Some range of `c` holds row `i`. */
  predicate Covered(c: seq<(nat, nat)>, i: nat) {
    exists j :: 0 <= j < |c| && InChunk(c, j, i)
  }

  lemma {:induction false} ChunksFromShape(start: nat, n: nat, size: nat)
    requires size >= 1
    ensures start <= n ==> IsChunking(ChunksFrom(start, n, size), start, n, size)
    decreases n - start
  {
    if start < n {
      ChunksFromShape(start + size, n, size);
      var rest := ChunksFrom(start + size, n, size);
      if start + size < n {
        assert rest[0].0 == start + size;
      }
    }
  }

  lemma {:induction false} ChunkStart(start: nat, n: nat, size: nat, j: nat)
    requires size >= 1
    requires j < |ChunksFrom(start, n, size)|
    ensures ChunksFrom(start, n, size)[j].0 == start + j * size
    decreases n - start
  {
    if j > 0 {
      ChunkStart(start + size, n, size, j - 1);
      assert (j - 1) * size + size == j * size;
    }
  }

  lemma {:induction false} ChunkingAscending(c: seq<(nat, nat)>, lo: nat, hi: nat, size: nat, j1: nat, j2: nat)
    requires IsChunking(c, lo, hi, size)
    requires j1 < j2 < |c|
    ensures c[j1].1 <= c[j2].0
    decreases j2 - j1
  {
    if j1 + 1 < j2 {
      ChunkingAscending(c, lo, hi, size, j1, j2 - 1);
    }
  }

  lemma {:induction false} ChunkingCoversFrom(c: seq<(nat, nat)>, lo: nat, hi: nat, size: nat, k: nat, i: nat)
    requires IsChunking(c, lo, hi, size)
    requires k < |c| && c[k].0 <= i < hi
    ensures Covered(c, i)
    decreases |c| - k
  {
    if i < c[k].1 {
      assert InChunk(c, k, i);
    } else {
      assert k + 1 < |c|;
      ChunkingCoversFrom(c, lo, hi, size, k + 1, i);
    }
  }

  /**
   * The chunk loop's ranges start at 0, size, 2*size, ...; each is non-empty
   * and at most `size` long and ends at `min(start + size, n)`; they ascend,
   * and every row of `[0, n)` lies in exactly one of them.
   */
  lemma ChunkRangesPartition(n: nat, size: nat)
    requires size >= 1
    ensures var c := ChunkRanges(n, size);
      && IsChunking(c, 0, n, size)
      && (forall j :: 0 <= j < |c| ==> c[j].0 == j * size && c[j].1 == Min(c[j].0 + size, n))
      && (forall j1, j2 :: 0 <= j1 < j2 < |c| ==> c[j1].1 <= c[j2].0)
      && (forall i :: 0 <= i < n ==> Covered(c, i))
      && (forall i, j1, j2 :: 0 <= j1 < |c| && 0 <= j2 < |c| && InChunk(c, j1, i) && InChunk(c, j2, i) ==> j1 == j2)
  {
    var c := ChunkRanges(n, size);
    ChunksFromShape(0, n, size);
    ChunkBounds(n, size);
    ChunkingDisjoint(c, 0, n, size);
    forall i | 0 <= i < n
      ensures Covered(c, i)
    {
      ChunkingCoversFrom(c, 0, n, size, 0, i);
    }
  }

  lemma ChunkBounds(n: nat, size: nat)
    requires size >= 1
    ensures var c := ChunkRanges(n, size);
      forall j :: 0 <= j < |c| ==> c[j].0 == j * size && c[j].1 == Min(c[j].0 + size, n)
  {
    var c := ChunkRanges(n, size);
    forall j | 0 <= j < |c|
      ensures c[j].0 == j * size && c[j].1 == Min(c[j].0 + size, n)
    {
      ChunkStart(0, n, size, j);
      ChunkEnd(0, n, size, j);
    }
  }

  /** Ranges of a chunking ascend, so no row lies in two of them. */
  lemma ChunkingDisjoint(c: seq<(nat, nat)>, lo: nat, hi: nat, size: nat)
    requires IsChunking(c, lo, hi, size)
    ensures forall j1, j2 :: 0 <= j1 < j2 < |c| ==> c[j1].1 <= c[j2].0
    ensures forall i, j1, j2 :: 0 <= j1 < |c| && 0 <= j2 < |c| && InChunk(c, j1, i) && InChunk(c, j2, i) ==> j1 == j2
  {
    forall j1, j2 | 0 <= j1 < j2 < |c|
      ensures c[j1].1 <= c[j2].0
    {
      ChunkingAscending(c, lo, hi, size, j1, j2);
    }
  }

  lemma {:induction false} ChunkEnd(start: nat, n: nat, size: nat, j: nat)
    requires size >= 1
    requires j < |ChunksFrom(start, n, size)|
    ensures ChunksFrom(start, n, size)[j].1 == Min(ChunksFrom(start, n, size)[j].0 + size, n)
    decreases n - start
  {
    if j > 0 {
      ChunkEnd(start + size, n, size, j - 1);
    }
  }

  /** The start of the chunk that holds row `f`. */
  function ChunkStartOf(c: seq<(nat, nat)>, lo: nat, hi: nat, size: nat, f: nat): (p: nat)
    requires IsChunking(c, lo, hi, size)
    requires lo <= f < hi
    ensures lo <= p <= f
  {
    if f < c[0].1 then c[0].0
    else ChunkStartOf(c[1..], c[0].1, hi, size, f)
  }

  lemma {:induction false} ChunkStartOfAt(c: seq<(nat, nat)>, lo: nat, hi: nat, size: nat, k: nat, f: nat)
    requires IsChunking(c, lo, hi, size)
    requires k < |c| && c[k].0 <= f < c[k].1
    ensures lo <= f < hi && ChunkStartOf(c, lo, hi, size, f) == c[k].0
  {
    if k > 0 {
      ChunkingAscending(c, lo, hi, size, 0, k);
      ChunkStartOfAt(c[1..], c[0].1, hi, size, k - 1, f);
    }
  }

  // ---------------------------------------------------------------------
  // The squared change of a half-epoch

  /** Squared Euclidean distance of two rows (over their common length). */
  function RowSqDist(u: Row, v: Row): real
    decreases |u|
  {
    if |u| == 0 || |v| == 0 then 0.0
    else (u[0] - v[0]) * (u[0] - v[0]) + RowSqDist(u[1..], v[1..])
  }

  /** Squared Frobenius distance of two matrices with the same row count. */
  function SqDist(a: seq<Row>, b: seq<Row>): real
    requires |a| == |b|
  {
    if |a| == 0 then 0.0 else RowSqDist(a[0], b[0]) + SqDist(a[1..], b[1..])
  }

  /** Summing per-chunk squared differences gives the squared difference of the whole. */
  lemma {:induction false} SqDistAppend(a1: seq<Row>, a2: seq<Row>, b1: seq<Row>, b2: seq<Row>)
    requires |a1| == |b1| && |a2| == |b2|
    ensures SqDist(a1 + a2, b1 + b2) == SqDist(a1, b1) + SqDist(a2, b2)
  {
    if |a1| > 0 {
      assert (a1 + a2)[1..] == a1[1..] + a2;
      assert (b1 + b2)[1..] == b1[1..] + b2;
      SqDistAppend(a1[1..], a2, b1[1..], b2);
    } else {
      assert a1 + a2 == a2 && b1 + b2 == b2;
    }
  }

  // ---------------------------------------------------------------------
  // The half-epoch

  /** The first row at or after `from` whose solve fails, or `|m|`. */
  function FirstFailure(solve: RowSolver, m: seq<Entries>, from: nat): (f: nat)
    requires from <= |m|
    ensures from <= f <= |m|
    ensures f < |m| ==> Fails(solve, m[f])
    ensures forall i :: from <= i < f ==> !Fails(solve, m[i])
    decreases |m| - from
  {
    if from == |m| then |m|
    else if Fails(solve, m[from]) then from
    else FirstFailure(solve, m, from + 1)
  }

  datatype HalfEpochState = HalfEpochState(left: seq<Row>, outcome: Result<real, HalfEpochError>)

  /**
   * The matrix `left` becomes, and the squared change returned or the error
   * raised, when `_train_update_fanout` runs on rows `m` with prev values `prev`.
   * A failure in the sequential case leaves `left` untouched; in the chunked
   * case the chunks before the one holding the first failing row have already
   * been committed.
   */
  function HalfEpoch(solve: RowSolver, m: seq<Entries>, prev: seq<Row>, chunkSize: nat): (h: HalfEpochState)
    requires |m| == |prev|
    ensures |h.left| == |prev|
    ensures h.outcome.Ok? ==> h.outcome.value == SqDist(prev, h.left)
    ensures h.outcome.Err? && |m| <= SequentialLimit ==> h.left == prev
  {
    var n := |m|;
    if n > SequentialLimit && chunkSize == 0 then HalfEpochState(prev, Err(ZeroChunkSize))
    else if !BlockFails(solve, m, 0, n) then
      var updated := SolvedBlock(solve, m, prev, 0, n);
      HalfEpochState(updated, Ok(SqDist(prev, updated)))
    else if n <= SequentialLimit then HalfEpochState(prev, Err(SolveFailed))
    else
      ChunksFromShape(0, n, chunkSize);
      var f := FirstFailure(solve, m, 0);
      var p := ChunkStartOf(ChunkRanges(n, chunkSize), 0, n, chunkSize, f);
      HalfEpochState(SolvedBlock(solve, m, prev, 0, p) + prev[p..], Err(SolveFailed))
  }

  /** The ranges of the submitted chunk tasks. */
  datatype Submitted = Submitted(start: nat, end: nat, block: Result<seq<Row>, HalfEpochError>)

  function Spans(results: seq<Submitted>): seq<(nat, nat)> {
    seq(|results|, k requires 0 <= k < |results| => (results[k].start, results[k].end))
  }

  /**
   * The submission loop of `_train_update_fanout`: one task per range
   * `[start, min(start + size, nrows))` for `start` in `range(0, nrows, size)`,
   * each evaluated to what `_train_update_rows` returns for its range.
   */
  method SubmitChunks(ctx: TrainContext, chunkSize: nat) returns (results: seq<Submitted>)
    requires ctx.Valid()
    requires chunkSize >= 1
    ensures Spans(results) == ChunkRanges(ctx.nrows, chunkSize)
    ensures forall k :: 0 <= k < |results| ==>
      results[k].start <= results[k].end <= ctx.nrows &&
      results[k].block == BlockOutcome(ctx.solve, ctx.matrix, ctx.left[..], results[k].start, results[k].end)
  {
    var n := ctx.nrows;
    results := [];
    var start := 0;
    ghost var all := ChunkRanges(n, chunkSize);
    assert Spans(results) + ChunksFrom(start, n, chunkSize) == all;
    while start < n
      invariant all == Spans(results) + ChunksFrom(start, n, chunkSize)
      invariant forall k :: 0 <= k < |results| ==>
        results[k].start <= results[k].end <= n &&
        results[k].block == BlockOutcome(ctx.solve, ctx.matrix, ctx.left[..], results[k].start, results[k].end)
    {
      var end := Min(start + chunkSize, n);
      var block := UpdateRows(ctx, start, end);
      ghost var rest := ChunksFrom(start + chunkSize, n, chunkSize);
      assert ChunksFrom(start, n, chunkSize) == [(start, end)] + rest;
      var next := results + [Submitted(start, end, block)];
      assert Spans(next) == Spans(results) + [(start, end)];
      assert Spans(results) + ([(start, end)] + rest) == Spans(next) + rest;
      assert next[|results|].block == BlockOutcome(ctx.solve, ctx.matrix, ctx.left[..], start, end);
      results := next;
      start := start + chunkSize;
    }
  }

  /** Committing the block of `[s, e)` after the blocks of `[0, s)` extends every invariant to `[0, e)`. */
  lemma CommitStep(solve: RowSolver, m: seq<Entries>, before: seq<Row>, s: nat, e: nat, left: seq<Row>, sqerr: real)
    requires s <= e <= |m| == |before|
    requires !BlockFails(solve, m, 0, s) && !BlockFails(solve, m, s, e)
    requires left == SolvedBlock(solve, m, before, 0, s) + before[s..]
    requires sqerr == SqDist(before[..s], SolvedBlock(solve, m, before, 0, s))
    ensures !BlockFails(solve, m, 0, e)
    ensures left[s..e] == before[s..e]
    ensures left[..s] + SolvedBlock(solve, m, before, s, e) + left[e..]
      == SolvedBlock(solve, m, before, 0, e) + before[e..]
    ensures sqerr + SqDist(left[s..e], SolvedBlock(solve, m, before, s, e))
      == SqDist(before[..e], SolvedBlock(solve, m, before, 0, e))
  {
    var done := SolvedBlock(solve, m, before, 0, s);
    var block := SolvedBlock(solve, m, before, s, e);
    SolvedBlockSplit(solve, m, before, 0, s, e);
    assert left[..s] == done;
    assert left[s..e] == before[s..e];
    assert left[e..] == before[e..];
    SqDistAppend(before[..s], before[s..e], done, block);
    assert before[..e] == before[..s] + before[s..e];
  }

  /**
   * `_train_update_fanout(ctx, chunking)`: up to 50 rows are solved as one
   * block and assigned at once; otherwise one task per chunk is submitted
   * and, in submission order, each finished block is committed into `left`
   * and its squared change added up.
   */
  method UpdateFanout(ctx: TrainContext, chunkSize: nat) returns (outcome: Result<real, HalfEpochError>)
    requires ctx.Valid()
    modifies ctx.left
    ensures var h := HalfEpoch(ctx.solve, ctx.matrix, old(ctx.left[..]), chunkSize);
      ctx.left[..] == h.left && outcome == h.outcome
  {
    var n := ctx.nrows;
    ghost var before := ctx.left[..];
    if n <= SequentialLimit {
      var rows := UpdateRows(ctx, 0, n);
      if rows.Err? {
        return Err(SolveFailed);
      }
      var sqerr := SqDist(ctx.left[..], rows.value);
      Commit(ctx, 0, rows.value);
      return Ok(sqerr);
    }
    if chunkSize == 0 {
      return Err(ZeroChunkSize);
    }
    var results := SubmitChunks(ctx, chunkSize);
    outcome := CommitChunks(ctx, chunkSize, results);
  }

  /**
   * The commit loop of `_train_update_fanout`: waits on each task in
   * submission order, adds the squared change of its rows and assigns its
   * block into `left`. A failing task raises with the earlier blocks
   * already assigned.
   */
  method CommitChunks(ctx: TrainContext, chunkSize: nat, results: seq<Submitted>) returns (outcome: Result<real, HalfEpochError>)
    requires ctx.Valid()
    requires ctx.nrows > SequentialLimit && chunkSize >= 1
    requires Spans(results) == ChunkRanges(ctx.nrows, chunkSize)
    requires forall k :: 0 <= k < |results| ==>
      results[k].start <= results[k].end <= ctx.nrows &&
      results[k].block == BlockOutcome(ctx.solve, ctx.matrix, ctx.left[..], results[k].start, results[k].end)
    modifies ctx.left
    ensures var h := HalfEpoch(ctx.solve, ctx.matrix, old(ctx.left[..]), chunkSize);
      ctx.left[..] == h.left && outcome == h.outcome
  {
    var n := ctx.nrows;
    ghost var before := ctx.left[..];
    ghost var ranges := ChunkRanges(n, chunkSize);
    ChunksFromShape(0, n, chunkSize);
    assert |results| == |ranges|;

    var sqerr := 0.0;
    var k := 0;
    ghost var p: nat := 0;
    while k < |results|
      invariant k <= |ranges| && p <= n
      invariant p == if k < |ranges| then ranges[k].0 else n
      invariant !BlockFails(ctx.solve, ctx.matrix, 0, p)
      invariant ctx.left[..] == SolvedBlock(ctx.solve, ctx.matrix, before, 0, p) + before[p..]
      invariant sqerr == SqDist(before[..p], SolvedBlock(ctx.solve, ctx.matrix, before, 0, p))
    {
      var s, e := results[k].start, results[k].end;
      assert (s, e) == Spans(results)[k] == ranges[k];
      if results[k].block.Err? {
        ChunkedFailure(ctx.solve, ctx.matrix, before, chunkSize, k);
        return Err(SolveFailed);
      }
      sqerr := CommitBlock(ctx, before, s, e, results[k].block.value, sqerr);
      if k + 1 < |ranges| {
        assert ranges[k].1 == ranges[k + 1].0;
      } else {
        assert e == n;
      }
      k := k + 1;
      p := e;
    }
    assert before[..n] == before;
    return Ok(sqerr);
  }

  /**
   * One step of the commit loop: adds the squared change of rows `[s, e)`
   * to `sqerr` and assigns the solved block over them. With every earlier
   * block committed, afterwards every block up to `e` is.
   */
  method CommitBlock(ctx: TrainContext, ghost before: seq<Row>, s: nat, e: nat, block: seq<Row>, sqerr: real)
      returns (total: real)
    requires ctx.Valid() && |before| == ctx.nrows
    requires s <= e <= ctx.nrows
    requires !BlockFails(ctx.solve, ctx.matrix, 0, s) && !BlockFails(ctx.solve, ctx.matrix, s, e)
    requires block == SolvedBlock(ctx.solve, ctx.matrix, before, s, e)
    requires ctx.left[..] == SolvedBlock(ctx.solve, ctx.matrix, before, 0, s) + before[s..]
    requires sqerr == SqDist(before[..s], SolvedBlock(ctx.solve, ctx.matrix, before, 0, s))
    modifies ctx.left
    ensures !BlockFails(ctx.solve, ctx.matrix, 0, e)
    ensures ctx.left[..] == SolvedBlock(ctx.solve, ctx.matrix, before, 0, e) + before[e..]
    ensures total == SqDist(before[..e], SolvedBlock(ctx.solve, ctx.matrix, before, 0, e))
  {
    CommitStep(ctx.solve, ctx.matrix, before, s, e, ctx.left[..], sqerr);
    total := sqerr + SqDist(ctx.left[s..e], block);
    Commit(ctx, s, block);
  }

  /** What `HalfEpoch` gives when the `k`-th chunk is the first to fail. */
  lemma ChunkedFailure(solve: RowSolver, m: seq<Entries>, prev: seq<Row>, chunkSize: nat, k: nat)
    requires |m| == |prev| > SequentialLimit && chunkSize >= 1
    requires k < |ChunkRanges(|m|, chunkSize)|
    requires var r := ChunkRanges(|m|, chunkSize)[k];
      r.0 <= r.1 <= |m| && !BlockFails(solve, m, 0, r.0) && BlockFails(solve, m, r.0, r.1)
    ensures var p := ChunkRanges(|m|, chunkSize)[k].0;
      HalfEpoch(solve, m, prev, chunkSize) == HalfEpochState(SolvedBlock(solve, m, prev, 0, p) + prev[p..], Err(SolveFailed))
  {
    ChunksFromShape(0, |m|, chunkSize);
    FailureInChunk(solve, m, ChunkRanges(|m|, chunkSize), |m|, chunkSize, k);
  }

  /**
   * A half-epoch succeeds exactly when no row with entries fails to solve
   * and, past 50 rows, the chunk size is positive. It then replaces every row
   * with entries by its solve and keeps every other row, whatever the
   * chunking, and reports the squared change over the whole matrix.
   */
  lemma HalfEpochSuccess(solve: RowSolver, m: seq<Entries>, prev: seq<Row>, chunkSize: nat)
    requires |m| == |prev|
    ensures var h := HalfEpoch(solve, m, prev, chunkSize);
      h.outcome.Ok? <==>
        (|m| <= SequentialLimit || chunkSize >= 1) && forall i :: 0 <= i < |m| ==> !Fails(solve, m[i])
    ensures var h := HalfEpoch(solve, m, prev, chunkSize);
      h.outcome.Ok? ==>
        && |h.left| == |prev|
        && (forall i :: 0 <= i < |m| ==> h.left[i] == if |m[i]| == 0 then prev[i] else solve(m[i]).value)
        && h.outcome.value == SqDist(prev, h.left)
  {
  }

  lemma MulMonotone(s: nat, a: nat, b: nat)
    requires a <= b
    ensures a * s <= b * s
  {
  }

  /** `q * size <= f < q * size + size` pins `q` down as `f / size`. */
  lemma QuotientOfBounds(f: nat, size: nat, q: nat)
    requires size >= 1
    requires q * size <= f < q * size + size
    ensures f / size == q && f % size == f - q * size
  {
    var d := f / size;
    if d < q {
      MulMonotone(size, d + 1, q);
    } else if d > q {
      MulMonotone(size, q + 1, d);
    }
  }

  /** `len(range(0, n, size))`: the loop submits `ceil(n / size)` chunks. */
  lemma ChunkCount(n: nat, size: nat)
    requires size >= 1
    ensures |ChunkRanges(n, size)| == (n + size - 1) / size
  {
    var c := ChunkRanges(n, size);
    ChunkRangesPartition(n, size);
    var k := |c|;
    if k == 0 {
      QuotientOfBounds(n + size - 1, size, 0);
    } else {
      assert c[k - 1].0 == (k - 1) * size && c[k - 1].1 == n;
      assert (k - 1) * size + size == k * size;
      QuotientOfBounds(n + size - 1, size, k);
    }
  }

  /**
   * A failing half-epoch. Up to 50 rows, or with a zero chunk size, `left`
   * is untouched. Otherwise the first failing row `f` lies in the chunk
   * starting at `p = f - f % size`; every row before `p` holds its solve and
   * every row from `p` on keeps its previous value, even the successfully
   * solved rows after the failing chunk.
   */
  lemma HalfEpochFailure(solve: RowSolver, m: seq<Entries>, prev: seq<Row>, chunkSize: nat)
    requires |m| == |prev|
    requires HalfEpoch(solve, m, prev, chunkSize).outcome.Err?
    ensures var h := HalfEpoch(solve, m, prev, chunkSize);
      |m| <= SequentialLimit ==> h.left == prev && h.outcome == Err(SolveFailed)
    ensures var h := HalfEpoch(solve, m, prev, chunkSize);
      |m| > SequentialLimit && chunkSize == 0 ==> h.left == prev && h.outcome == Err(ZeroChunkSize)
    ensures var h := HalfEpoch(solve, m, prev, chunkSize);
      |m| > SequentialLimit && chunkSize >= 1 ==>
        var f := FirstFailure(solve, m, 0);
        var p := f - f % chunkSize;
        && f < |m| && h.outcome == Err(SolveFailed)
        && 0 <= p <= f < p + chunkSize
        && |h.left| == |prev|
        && h.left[..p] == SolvedBlock(solve, m, prev, 0, p)
        && h.left[p..] == prev[p..]
  {
    var n := |m|;
    if n > SequentialLimit && chunkSize >= 1 {
      FailingChunkStart(solve, m, chunkSize);
      var f := FirstFailure(solve, m, 0);
      var p := f - f % chunkSize;
      var h := HalfEpoch(solve, m, prev, chunkSize);
      assert h.left == SolvedBlock(solve, m, prev, 0, p) + prev[p..];
    }
  }

  /** The chunk holding the first failing row starts at that row rounded down to the chunk size. */
  lemma FailingChunkStart(solve: RowSolver, m: seq<Entries>, chunkSize: nat)
    requires chunkSize >= 1 && BlockFails(solve, m, 0, |m|)
    ensures var f := FirstFailure(solve, m, 0);
      && f < |m|
      && IsChunking(ChunkRanges(|m|, chunkSize), 0, |m|, chunkSize)
      && ChunkStartOf(ChunkRanges(|m|, chunkSize), 0, |m|, chunkSize, f) == f - f % chunkSize
      && f - f % chunkSize <= f < f - f % chunkSize + chunkSize
  {
    var n := |m|;
    var f := FirstFailure(solve, m, 0);
    var c := ChunkRanges(n, chunkSize);
    ChunksFromShape(0, n, chunkSize);
    ChunkRangesPartition(n, chunkSize);
    assert f < n;
    assert Covered(c, f);
    var j :| 0 <= j < |c| && InChunk(c, j, f);
    assert c[j].0 == j * chunkSize;
    QuotientOfBounds(f, chunkSize, j);
    ChunkStartOfAt(c, 0, n, chunkSize, j, f);
  }

  /** A failing chunk preceded only by successful ones holds the first failing row. */
  lemma FailureInChunk(solve: RowSolver, m: seq<Entries>, ranges: seq<(nat, nat)>, n: nat, size: nat, k: nat)
    requires |m| == n && size >= 1 && ranges == ChunkRanges(n, size)
    requires IsChunking(ranges, 0, n, size)
    requires k < |ranges|
    requires !BlockFails(solve, m, 0, ranges[k].0)
    requires BlockFails(solve, m, ranges[k].0, ranges[k].1)
    ensures var f := FirstFailure(solve, m, 0);
      BlockFails(solve, m, 0, n) && f < n &&
      ChunkStartOf(ranges, 0, n, size, f) == ranges[k].0
  {
    var f := FirstFailure(solve, m, 0);
    var w :| ranges[k].0 <= w < ranges[k].1 && Fails(solve, m[w]);
    assert f <= w;
    ChunkStartOfAt(ranges, 0, n, size, k, f);
  }

  // ---------------------------------------------------------------------
  // BiasedMF's smaller rules

  /** The bias model (`Bias`); only its damping is visible here. */
  datatype Bias = Bias(damping: real)

  /** The `bias` argument of `BiasedMF`: `True`/`False`, `None`, or a bias model. */
  datatype BiasArg = Flag(on: bool) | NoBias | Model(model: Bias)

  /** `reg`: one regularisation term, or separate (user, item) terms. */
  datatype Reg = Scalar(term: real) | PerAxis(user: real, item: real)

  /** The hyper-parameters `BiasedMF.__init__` stores, apart from its random seed. */
  datatype BiasedMF = BiasedMF(features: int, epochs: int, reg: Reg, bias: Option<Bias>, saveUserFeatures: bool)

  /**
   * `True` fits a fresh `Bias` with the given damping; `False` and `None`
   * disable the bias; a bias model is kept as it is.
   */
  function SelectBias(bias: BiasArg, damping: real): (r: Option<Bias>)
    ensures r.Some? <==> bias == Flag(true) || bias.Model?
    ensures bias == Flag(true) ==> r == Some(Bias(damping))
    ensures bias.Model? ==> r == Some(bias.model)
  {
    match bias
    case Flag(on) => if on then Some(Bias(damping)) else None
    case NoBias => None
    case Model(b) => Some(b)
  }

  /** `BiasedMF(features, epochs=10, reg=0.1, damping=5, bias=True, save_user_features=True)`. */
  function NewBiasedMF(features: int, epochs: int := 10, reg: Reg := Scalar(0.1), damping: real := 5.0,
                       bias: BiasArg := Flag(true), saveUserFeatures: bool := true): (m: BiasedMF)
    ensures m.features == features && m.epochs == epochs && m.reg == reg
    ensures m.saveUserFeatures == saveUserFeatures
    ensures m.bias.Some? <==> bias == Flag(true) || bias.Model?
    ensures bias == Flag(true) ==> m.bias == Some(Bias(damping))
    ensures bias.Model? ==> m.bias == Some(bias.model)
  {
    BiasedMF(features, epochs, reg, SelectBias(bias, damping), saveUserFeatures)
  }

  /** With every default taken, the model is biased with damping 5 and regularisation 0.1. */
  lemma NewBiasedMFDefaults(features: int)
    ensures NewBiasedMF(features) == BiasedMF(features, 10, Scalar(0.1), Some(Bias(5.0)), true)
  {
  }

  /** The regularisation of a new user's row: the user term of a pair, else `reg` itself. */
  function UserReg(reg: Reg): (r: real)
    ensures reg.Scalar? ==> r == reg.term
    ensures reg.PerAxis? ==> r == reg.user
  {
    match reg
    case Scalar(t) => t
    case PerAxis(u, _) => u
  }

  /**
   * The (item position, rating) pairs of the ratings whose item is in the
   * model's item index, in their original order; the others are dropped.
   */
  function KnownRatings(items: seq<int>, ratings: seq<(int, real)>): (r: seq<(nat, real)>)
    ensures |r| <= |ratings|
    ensures forall e :: e in r ==> e.0 < |items|
  {
    if ratings == [] then []
    else
      var i := Vocab.IndexOf(items, ratings[0].0);
      var rest := KnownRatings(items, ratings[1..]);
      if i >= 0 then [(i as nat, ratings[0].1)] + rest else rest
  }

  /** Filtering commutes with concatenation, so the kept ratings stay in order. */
  lemma {:induction false} KnownRatingsAppend(items: seq<int>, a: seq<(int, real)>, b: seq<(int, real)>)
    ensures KnownRatings(items, a + b) == KnownRatings(items, a) + KnownRatings(items, b)
  {
    if a != [] {
      assert (a + b)[1..] == a[1..] + b;
      KnownRatingsAppend(items, a[1..], b);
    } else {
      assert a + b == b;
    }
  }

  /**
   * A pair is kept exactly when some rating names an item of the index at
   * that position with that value.
   */
  lemma {:induction false} KnownRatingsMembership(items: seq<int>, ratings: seq<(int, real)>, i: nat, v: real)
    ensures (i, v) in KnownRatings(items, ratings) <==>
      i < |items| && exists k :: (k, v) in ratings && Vocab.IndexOf(items, k) == i
  {
    if ratings != [] {
      KnownRatingsMembership(items, ratings[1..], i, v);
      assert ratings == [ratings[0]] + ratings[1..];
      if exists k :: (k, v) in ratings && Vocab.IndexOf(items, k) == i {
        var k :| (k, v) in ratings && Vocab.IndexOf(items, k) == i;
        if (k, v) != ratings[0] {
          assert (k, v) in ratings[1..];
        }
      }
    }
  }

  /** A rating whose item is unknown contributes nothing. */
  lemma KnownRatingsUnknown(items: seq<int>, ratings: seq<(int, real)>, k: int, v: real)
    requires k !in items
    ensures KnownRatings(items, ratings + [(k, v)]) == KnownRatings(items, ratings)
  {
    KnownRatingsAppend(items, ratings, [(k, v)]);
  }

  /**
   * `new_user_embedding(user, ratings)`: with a bias, the ratings are first
   * normalised by `transform` (`Bias.transform_user`), which also yields the
   * user's offset; the ratings of known items are then solved against
   * `item_features_` with the user regularisation. Returns the user's
   * feature row and the offset (absent without a bias), or `None` when the
   * solve does.
   */
  function NewUserEmbedding(model: BiasedMF, items: seq<int>, ratings: seq<(int, real)>,
                            transform: (Bias, seq<(int, real)>) -> (seq<(int, real)>, real),
                            solve: (seq<(nat, real)>, real) -> Option<Row>): (r: Option<(Row, Option<real>)>)
    ensures var input := if model.bias.Some? then transform(model.bias.value, ratings).0 else ratings;
      && (r.Some? <==> solve(KnownRatings(items, input), UserReg(model.reg)).Some?)
      && (r.Some? ==> r.value.0 == solve(KnownRatings(items, input), UserReg(model.reg)).value)
    ensures r.Some? ==> (r.value.1.Some? <==> model.bias.Some?)
    ensures r.Some? && model.bias.Some? ==> r.value.1 == Some(transform(model.bias.value, ratings).1)
  {
    var (input, offset) :=
      if model.bias.Some? then
        var t := transform(model.bias.value, ratings);
        (t.0, Some(t.1))
      else (ratings, None);
    match solve(KnownRatings(items, input), UserReg(model.reg))
    case None => None
    case Some(row) => Some((row, offset))
  }

  /**
   * `finalize_scores(user, scores, u_offset)`: without a bias the scores are
   * returned as they are; with one they go through `inverse`
   * (`Bias.inverse_transform_user`), passed the offset when there is one
   * and otherwise left to use the user's trained offset.
   */
  function FinalizeScores<U>(bias: Option<Bias>, user: U, scores: seq<real>, offset: Option<real>,
                             inverse: (Bias, U, seq<real>, Option<real>) -> seq<real>): (r: seq<real>)
    ensures bias.None? ==> r == scores
    ensures bias.Some? && offset.Some? ==> r == inverse(bias.value, user, scores, offset)
    ensures bias.Some? && offset.None? ==> r == inverse(bias.value, user, scores, None)
  {
    if bias.Some? && offset.Some? then inverse(bias.value, user, scores, offset)
    else if bias.Some? then inverse(bias.value, user, scores, None)
    else scores
  }

  /**
   * The offset `new_user_embedding` produces is the one `finalize_scores`
   * undoes: with a bias the scores are de-normalised with exactly the offset
   * the ratings were normalised with, and without one they pass unchanged.
   */
  lemma EmbeddingOffsetRoundTrip<U>(model: BiasedMF, items: seq<int>, ratings: seq<(int, real)>,
                                    transform: (Bias, seq<(int, real)>) -> (seq<(int, real)>, real),
                                    solve: (seq<(nat, real)>, real) -> Option<Row>,
                                    user: U, scores: seq<real>,
                                    inverse: (Bias, U, seq<real>, Option<real>) -> seq<real>)
    requires NewUserEmbedding(model, items, ratings, transform, solve).Some?
    ensures var offset := NewUserEmbedding(model, items, ratings, transform, solve).value.1;
      FinalizeScores(model.bias, user, scores, offset, inverse) ==
        if model.bias.Some?
        then inverse(model.bias.value, user, scores, Some(transform(model.bias.value, ratings).1))
        else scores
  {
  }
}
