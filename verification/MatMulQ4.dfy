/** matmul_impl of src/cpu_ops.c over the two kernels that take rows in pairs, where a row's place in a pair
    depends on where its range starts. */
module MatMulQ4 {
  import opened MatMul
  import opened ParallelFor
  import opened Spans
  import opened Terms
  import PackedQ4
  import PackedQ4K

  /** The test of line 546 on the thread pool. */
  predicate Threaded(pool: bool, workers: nat, outDim: nat, inDim: nat) {
    pool && workers > 1 && outDim > 1 && inDim >= 64
  }

  /** mat_job with rows_q4_0. */
  method JobQ4(w: seq<seq<PackedQ4.Block>>, x: seq<real>, y: array<Term>, r: Range) returns (ghost log: seq<Put<Term>>)
    requires PackedQ4.ValidRows(w, x) && |w| == y.Length && MatMul.Inside(r, |w|)
    modifies y
    ensures Job(log, y[..], old(y[..]), PackedQ4.Results(w, x), r)
  {
    if r.begin >= r.end {
      return [];
    }
    log := PackedQ4.Rows(w, x, y, r.begin, r.end);
  }

  /** The product with a Q4_0 weight: here the jobs run one after another; jobs is what each of them stores, and
      every interleaving of those stores leaves the same output, which is the serial one. */
  method ProductQ4(w: seq<seq<PackedQ4.Block>>, x: seq<real>, y: array<Term>, pool: bool, workers: nat)
    returns (ranges: seq<Range>, ghost jobs: Jobs<Term>)
    requires PackedQ4.ValidRows(w, x) && |w| == y.Length && 0 < |w| < WORD && workers < WORD
    requires Threaded(pool, workers, |w|, |x|) ==> |w| + Min(workers, |w|) <= WORD
    modifies y
    ensures y[..] == PackedQ4.Results(w, x)
    ensures JobsOf(jobs, ranges, PackedQ4.Results(w, x)) && AlwaysLeaves(jobs, old(y[..]), PackedQ4.Results(w, x))
    ensures OnceEach(ranges, |w|)
    ensures if pool && workers > 1 && |w| > 1 && |x| >= 64 then Balanced(ranges, |w|, Min(workers, |w|))
            else ranges == [Range(0, |w|)]
  {
    ghost var before, f := y[..], PackedQ4.Results(w, x);
    if Threaded(pool, workers, |w|, |x|) {
      ranges := Split(workers, |w|);
      RangesInside(ranges, |w|);
      jobs := [];
      for j := 0 to |ranges|
        invariant DoneUpto(jobs, ranges, f, y[..], j)
      {
        ghost var was := y[..];
        ghost var log := JobQ4(w, x, y, ranges[j]);
        OneMoreJob(jobs, ranges, f, was, y[..], j, log);
        jobs := jobs + [log];
      }
    } else {
      ranges := [Range(0, |w|)];
      ghost var log := JobQ4(w, x, y, Range(0, |w|));
      OneJob(log, y[..], before, f);
      jobs := [log];
    }
    AllDone(jobs, ranges, f, y[..]);
    EverySchedule(jobs, ranges, f, before);
  }

  /** mat_job with rows_q4_k. */
  method JobQ4K(w: seq<seq<PackedQ4K.Block>>, x: seq<real>, y: array<Term>, r: Range)
    returns (ghost log: seq<Put<Term>>)
    requires PackedQ4K.ValidRows(w, x) && |w| == y.Length && MatMul.Inside(r, |w|)
    modifies y
    ensures Job(log, y[..], old(y[..]), PackedQ4K.Results(w, x), r)
  {
    if r.begin >= r.end {
      return [];
    }
    log := PackedQ4K.Rows(w, x, y, r.begin, r.end);
  }

  /** The same for a Q4_K weight. */
  method ProductQ4K(w: seq<seq<PackedQ4K.Block>>, x: seq<real>, y: array<Term>, pool: bool, workers: nat)
    returns (ranges: seq<Range>, ghost jobs: Jobs<Term>)
    requires PackedQ4K.ValidRows(w, x) && |w| == y.Length && 0 < |w| < WORD && workers < WORD
    requires Threaded(pool, workers, |w|, |x|) ==> |w| + Min(workers, |w|) <= WORD
    modifies y
    ensures y[..] == PackedQ4K.Results(w, x)
    ensures JobsOf(jobs, ranges, PackedQ4K.Results(w, x)) && AlwaysLeaves(jobs, old(y[..]), PackedQ4K.Results(w, x))
    ensures OnceEach(ranges, |w|)
    ensures if pool && workers > 1 && |w| > 1 && |x| >= 64 then Balanced(ranges, |w|, Min(workers, |w|))
            else ranges == [Range(0, |w|)]
  {
    ghost var before, f := y[..], PackedQ4K.Results(w, x);
    if Threaded(pool, workers, |w|, |x|) {
      ranges := Split(workers, |w|);
      RangesInside(ranges, |w|);
      jobs := [];
      for j := 0 to |ranges|
        invariant DoneUpto(jobs, ranges, f, y[..], j)
      {
        ghost var was := y[..];
        ghost var log := JobQ4K(w, x, y, ranges[j]);
        OneMoreJob(jobs, ranges, f, was, y[..], j, log);
        jobs := jobs + [log];
      }
    } else {
      ranges := [Range(0, |w|)];
      ghost var log := JobQ4K(w, x, y, Range(0, |w|));
      OneJob(log, y[..], before, f);
      jobs := [log];
    }
    AllDone(jobs, ranges, f, y[..]);
    EverySchedule(jobs, ranges, f, before);
  }
}
