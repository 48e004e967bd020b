/** The threaded matrix-vector product of src/cpu_ops.c: the jobs that vg_threadpool_parallel_for starts store
    their rows in any interleaving. The stores of a job are those the kernel made on the job's range. */
module MatMul {
  import opened ParallelFor
  import opened Spans

  // ----- any interleaving -----

  /** What each job stores, in its own order. */
  type Jobs<T> = seq<seq<Put<T>>>

  /** The output, and how many stores each job has made. */
  datatype Machine<T> = Machine(y: seq<T>, pc: seq<nat>)

  function Start<T>(y: seq<T>, jobs: nat): Machine<T> {
    Machine(y, seq(jobs, _ => 0))
  }

  /** Job j makes its next store, if it has one left. */
  function Step<T>(jobs: Jobs<T>, m: Machine<T>, j: nat): (r: Machine<T>)
    requires |m.pc| == |jobs|
    ensures |r.pc| == |jobs| && |r.y| == |m.y|
  {
    if j < |jobs| && m.pc[j] < |jobs[j]| && jobs[j][m.pc[j]].row < |m.y| then
      var put := jobs[j][m.pc[j]];
      Machine(m.y[put.row := put.value], m.pc[j := m.pc[j] + 1])
    else m
  }

  /** A schedule names the job that moves at each moment. */
  function Exec<T>(jobs: Jobs<T>, m: Machine<T>, order: seq<nat>): (r: Machine<T>)
    requires |m.pc| == |jobs|
    ensures |r.pc| == |jobs| && |r.y| == |m.y|
    decreases |order|
  {
    if order == [] then m else Exec(jobs, Step(jobs, m, order[0]), order[1..])
  }

  /** Every job has made its last store. */
  ghost predicate Finished<T>(jobs: Jobs<T>, m: Machine<T>)
    requires |m.pc| == |jobs|
  {
    forall j :: 0 <= j < |jobs| ==> m.pc[j] >= |jobs[j]|
  }

  ghost predicate Inside(r: Range, n: nat) {
    r.begin < r.end ==> r.end <= n
  }

  /** The jobs are the row loops over the ranges. */
  ghost predicate JobsOf<T>(jobs: Jobs<T>, ranges: seq<Range>, f: seq<T>) {
    |jobs| == |ranges| &&
    forall j :: 0 <= j < |jobs| ==> Inside(ranges[j], |f|) && jobs[j] == RowLog(f, ranges[j].begin, ranges[j].end)
  }

  /** Job j has made its store of row r. */
  ghost predicate MadeBy(ranges: seq<Range>, pc: seq<nat>, r: nat, j: nat)
    requires |pc| == |ranges|
  {
    j < |ranges| && ranges[j].begin <= r < ranges[j].begin + pc[j]
  }

  ghost predicate Made(ranges: seq<Range>, pc: seq<nat>, r: nat)
    requires |pc| == |ranges|
  {
    exists j: nat :: MadeBy(ranges, pc, r, j)
  }

  /** The rows stored so far hold their values, the others what they held before. */
  ghost predicate Mixed<T>(ranges: seq<Range>, f: seq<T>, y0: seq<T>, m: Machine<T>) {
    |m.pc| == |ranges| && |m.y| == |f| == |y0| &&
    forall r :: 0 <= r < |f| ==> m.y[r] == if Made(ranges, m.pc, r) then f[r] else y0[r]
  }

  lemma OneMade(ranges: seq<Range>, pc: seq<nat>, j: nat, r: nat)
    requires |pc| == |ranges| && j < |ranges|
    ensures Made(ranges, pc[j := pc[j] + 1], r) <==> Made(ranges, pc, r) || r == ranges[j].begin + pc[j]
  {
    var pc' := pc[j := pc[j] + 1];
    if Made(ranges, pc, r) {
      var i: nat :| MadeBy(ranges, pc, r, i);
      assert MadeBy(ranges, pc', r, i);
    }
    if r == ranges[j].begin + pc[j] {
      assert MadeBy(ranges, pc', r, j);
    }
    if Made(ranges, pc', r) && r != ranges[j].begin + pc[j] {
      var i: nat :| MadeBy(ranges, pc', r, i);
      assert MadeBy(ranges, pc, r, i);
    }
  }

  lemma StepKeeps<T>(jobs: Jobs<T>, ranges: seq<Range>, f: seq<T>, y0: seq<T>, m: Machine<T>, j: nat)
    requires JobsOf(jobs, ranges, f) && Mixed(ranges, f, y0, m)
    ensures Mixed(ranges, f, y0, Step(jobs, m, j))
  {
    if j < |jobs| && m.pc[j] < |jobs[j]| {
      RowLogAt(f, ranges[j].begin, ranges[j].end, m.pc[j]);
      forall r | 0 <= r < |f|
        ensures Made(ranges, m.pc[j := m.pc[j] + 1], r) <==> Made(ranges, m.pc, r) || r == ranges[j].begin + m.pc[j]
      {
        OneMade(ranges, m.pc, j, r);
      }
    }
  }

  lemma {:induction false} ExecKeeps<T>(jobs: Jobs<T>, ranges: seq<Range>, f: seq<T>, y0: seq<T>, m: Machine<T>,
                                        order: seq<nat>)
    requires JobsOf(jobs, ranges, f) && Mixed(ranges, f, y0, m)
    ensures Mixed(ranges, f, y0, Exec(jobs, m, order))
    decreases |order|
  {
    if order != [] {
      StepKeeps(jobs, ranges, f, y0, m, order[0]);
      ExecKeeps(jobs, ranges, f, y0, Step(jobs, m, order[0]), order[1..]);
    }
  }

  lemma NoneMade<T>(ranges: seq<Range>, f: seq<T>, y0: seq<T>)
    requires |y0| == |f|
    ensures Mixed(ranges, f, y0, Start(y0, |ranges|))
  {
  }

  // ----- ranges -----

  /** An item counted at least once is in some range. */
  lemma {:induction false} CountedIsIn(ranges: seq<Range>, i: nat) returns (j: nat)
    requires Count(ranges, i) > 0
    ensures j < |ranges| && ranges[j].begin <= i < ranges[j].end
  {
    if ranges[0].begin <= i < ranges[0].end {
      j := 0;
    } else {
      j := CountedIsIn(ranges[1..], i);
      j := j + 1;
    }
  }

  lemma {:induction false} InIsCounted(ranges: seq<Range>, i: nat, j: nat)
    requires j < |ranges| && ranges[j].begin <= i < ranges[j].end
    ensures Count(ranges, i) > 0
  {
    if j > 0 {
      InIsCounted(ranges[1..], i, j - 1);
    }
  }

  lemma {:induction false} TwiceIsTwo(ranges: seq<Range>, i: nat, j: nat, k: nat)
    requires j < k < |ranges| && ranges[j].begin <= i < ranges[j].end && ranges[k].begin <= i < ranges[k].end
    ensures Count(ranges, i) > 1
  {
    if j > 0 {
      TwiceIsTwo(ranges[1..], i, j - 1, k - 1);
    } else {
      InIsCounted(ranges[1..], i, k - 1);
    }
  }

  lemma RangesInside(ranges: seq<Range>, n: nat)
    requires OnceEach(ranges, n)
    ensures forall j :: 0 <= j < |ranges| ==> Inside(ranges[j], n)
  {
    forall j | 0 <= j < |ranges| ensures Inside(ranges[j], n) {
      if ranges[j].begin < ranges[j].end {
        InIsCounted(ranges, ranges[j].end - 1, j);
        assert Count(ranges, ranges[j].end - 1) <= 1;
      }
    }
  }

  /** Two jobs never write the same row. */
  lemma NoRowShared(ranges: seq<Range>, n: nat, r: nat, j: nat, k: nat)
    requires OnceEach(ranges, n) && j < k < |ranges|
    ensures !(ranges[j].begin <= r < ranges[j].end && ranges[k].begin <= r < ranges[k].end)
  {
    assert Count(ranges, r) <= 1;
    if ranges[j].begin <= r < ranges[j].end && ranges[k].begin <= r < ranges[k].end {
      TwiceIsTwo(ranges, r, j, k);
      assert false;
    }
  }

  /** Whatever the schedule, once all jobs have finished every row holds what the serial loop gives it. */
  lemma AnyScheduleIsSerial<T>(jobs: Jobs<T>, ranges: seq<Range>, f: seq<T>, y0: seq<T>, order: seq<nat>)
    requires OnceEach(ranges, |f|) && |y0| == |f| && JobsOf(jobs, ranges, f)
    requires Finished(jobs, Exec(jobs, Start(y0, |jobs|), order))
    ensures Exec(jobs, Start(y0, |jobs|), order).y == f
  {
    var m := Exec(jobs, Start(y0, |jobs|), order);
    NoneMade(ranges, f, y0);
    ExecKeeps(jobs, ranges, f, y0, Start(y0, |jobs|), order);
    forall r | 0 <= r < |f| ensures m.y[r] == f[r] {
      assert Count(ranges, r) == 1;
      var j := CountedIsIn(ranges, r);
      assert m.pc[j] >= |jobs[j]|;
      assert MadeBy(ranges, m.pc, r, j);
    }
  }

  /** Every finished interleaving of the jobs, from the output y0, leaves f. */
  ghost predicate AlwaysLeaves<T(!new)>(jobs: Jobs<T>, y0: seq<T>, f: seq<T>) {
    forall order: seq<nat> :: Finished(jobs, Exec(jobs, Start(y0, |jobs|), order)) ==>
                                Exec(jobs, Start(y0, |jobs|), order).y == f
  }

  lemma EverySchedule<T(!new)>(jobs: Jobs<T>, ranges: seq<Range>, f: seq<T>, y0: seq<T>)
    requires OnceEach(ranges, |f|) && |y0| == |f| && JobsOf(jobs, ranges, f)
    ensures AlwaysLeaves(jobs, y0, f)
  {
    forall order: seq<nat> | Finished(jobs, Exec(jobs, Start(y0, |jobs|), order))
      ensures Exec(jobs, Start(y0, |jobs|), order).y == f
    {
      AnyScheduleIsSerial(jobs, ranges, f, y0, order);
    }
  }

  // ----- the jobs one after another -----

  /** After the first k jobs, their rows hold their results. */
  ghost predicate DoneUpto<T>(jobs: Jobs<T>, ranges: seq<Range>, f: seq<T>, y: seq<T>, k: nat) {
    |y| == |f| && k <= |ranges| && |jobs| == k && (forall j :: 0 <= j < k ==> Done(f, y, ranges[j])) &&
    forall j :: 0 <= j < k ==> Inside(ranges[j], |f|) && jobs[j] == RowLog(f, ranges[j].begin, ranges[j].end)
  }

  ghost predicate Done<T>(f: seq<T>, y: seq<T>, r: Range) {
    |y| == |f| && forall i :: r.begin <= i < r.end && i < |f| ==> y[i] == f[i]
  }

  /** What a job leaves: its rows, if its range is not empty. */
  ghost predicate Job<T>(log: seq<Put<T>>, y: seq<T>, before: seq<T>, f: seq<T>, r: Range) {
    Inside(r, |f|) && if r.begin < r.end then Logged(log, y, before, f, r.begin, r.end) else log == [] && y == before
  }

  lemma OneMoreJob<T>(jobs: Jobs<T>, ranges: seq<Range>, f: seq<T>, was: seq<T>, y: seq<T>, k: nat, log: seq<Put<T>>)
    requires DoneUpto(jobs, ranges, f, was, k) && k < |ranges| && Job(log, y, was, f, ranges[k])
    ensures DoneUpto(jobs + [log], ranges, f, y, k + 1)
  {
    var r := ranges[k];
    forall j | 0 <= j < k + 1 ensures Done(f, y, ranges[j]) {
      assert j < k ==> Done(f, was, ranges[j]);
    }
  }

  lemma AllDone<T>(jobs: Jobs<T>, ranges: seq<Range>, f: seq<T>, y: seq<T>)
    requires DoneUpto(jobs, ranges, f, y, |ranges|) && OnceEach(ranges, |f|)
    ensures y == f && JobsOf(jobs, ranges, f)
  {
    forall r | 0 <= r < |f| ensures y[r] == f[r] {
      assert Count(ranges, r) == 1;
      var j := CountedIsIn(ranges, r);
      assert Done(f, y, ranges[j]);
    }
  }

  lemma OneJob<T>(log: seq<Put<T>>, y: seq<T>, before: seq<T>, f: seq<T>)
    requires Job(log, y, before, f, Range(0, |f|)) && |y| == |before| == |f|
    ensures DoneUpto([log], [Range(0, |f|)], f, y, 1) && OnceEach([Range(0, |f|)], |f|)
  {
    TilesMore([], 0, 0, |f|);
    assert [] + [Range(0, |f|)] == [Range(0, |f|)];
  }
}
