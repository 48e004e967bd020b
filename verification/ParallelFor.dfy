/** vg_threadpool_parallel_for of src/threadpool.c: how n items are split over the workers, in
    32-bit unsigned arithmetic. */
module ParallelFor {
  const WORD: nat := 0x1_0000_0000

  datatype Range = Range(begin: nat, end: nat)

  /** The jobs handed out, in the order they are created; the caller's own share comes last. */
  ghost function Count(ranges: seq<Range>, i: nat): nat {
    if ranges == [] then 0
    else (if ranges[0].begin <= i < ranges[0].end then 1 else 0) + Count(ranges[1..], i)
  }

  /** Every item below n is in exactly one range, and no range reaches past n. */
  ghost predicate OnceEach(ranges: seq<Range>, n: nat) {
    forall i: nat :: Count(ranges, i) == if i < n then 1 else 0
  }

  function Min(a: nat, b: nat): nat {
    if a < b then a else b
  }

  lemma {:induction false} CountAppend(ranges: seq<Range>, r: Range, i: nat)
    ensures Count(ranges + [r], i) == Count(ranges, i) + (if r.begin <= i < r.end then 1 else 0)
  {
    if ranges == [] {
      assert [] + [r] == [r];
    } else {
      assert (ranges + [r])[1..] == ranges[1..] + [r];
      CountAppend(ranges[1..], r, i);
    }
  }

  /** The ranges so far hold exactly the items from lo up to hi, once each. */
  ghost predicate Tiles(ranges: seq<Range>, lo: nat, hi: nat) {
    forall i: nat :: Count(ranges, i) == if lo <= i < hi then 1 else 0
  }

  lemma TilesMore(ranges: seq<Range>, lo: nat, mid: nat, hi: nat)
    requires Tiles(ranges, lo, mid) && lo <= mid <= hi
    ensures Tiles(ranges + [Range(mid, hi)], lo, hi)
  {
    forall i: nat ensures Count(ranges + [Range(mid, hi)], i) == if lo <= i < hi then 1 else 0 {
      CountAppend(ranges, Range(mid, hi), i);
    }
  }

  /** Unsigned 32-bit arithmetic. */
  function Wrap(x: nat): nat {
    x % WORD
  }

  lemma Fits(x: nat)
    requires x < WORD
    ensures Wrap(x) == x
  {
  }

  function Times(c: nat, per: nat): nat {
    c * per
  }

  /** The share of each chunk: n over chunks, rounded up, with the sum taken in 32 bits. */
  function Share(n: nat, chunks: nat): nat
    requires chunks > 0
  {
    ((n + chunks - 1) % WORD) / chunks
  }

  /** Without overflow the shares reach n and overshoot by less than one item a chunk. */
  lemma ShareReaches(n: nat, chunks: nat, per: nat)
    requires 0 < chunks <= n && n + chunks - 1 < WORD && per == Share(n, chunks)
    ensures 1 <= per <= n && n <= Times(chunks, per) <= n + chunks - 1
  {
    var q, r := (n + chunks - 1) / chunks, (n + chunks - 1) % chunks;
    assert n + chunks - 1 == Times(chunks, q) + r;
    assert Times(chunks, 0) == 0;
    if q > n {
      Grows(chunks, n + 1, q);
      assert Times(chunks, n + 1) == Times(chunks, n) + chunks;
      Covers(chunks, n);
    }
  }

  lemma {:induction false} Covers(chunks: nat, n: nat)
    requires chunks > 0
    ensures Times(chunks, n) >= n
  {
    if n > 0 {
      Covers(chunks, n - 1);
      assert Times(chunks, n) == Times(chunks, n - 1) + chunks;
    }
  }

  lemma {:induction false} Grows(c: nat, a: nat, b: nat)
    requires a <= b
    ensures Times(c, a) <= Times(c, b) && Times(a, c) <= Times(b, c)
    decreases b
  {
    if a < b {
      Grows(c, a, b - 1);
      assert Times(c, b) == Times(c, b - 1) + c && Times(b, c) == Times(b - 1, c) + c;
    }
  }

  /** With overflow every share is empty. */
  lemma ShareWraps(n: nat, chunks: nat)
    requires 0 < chunks <= n < WORD && n + chunks - 1 >= WORD
    ensures Share(n, chunks) == 0
  {
  }

  /** The jobs handed out before chunk c, starting after the caller's own share. */
  ghost predicate HandedOut(ranges: seq<Range>, n: nat, per: nat, c: nat) {
    Tiles(ranges, Min(per, n), Min(Times(c, per), n))
  }

  lemma HandOne(ranges: seq<Range>, n: nat, chunks: nat, per: nat, c: nat)
    requires 1 <= c < chunks <= n < WORD && per == Share(n, chunks) && HandedOut(ranges, n, per, c)
    ensures Times(c, per) < WORD && Times(c, per) + per < WORD
    ensures if Times(c, per) >= n then Min(Times(c, per), n) == n
            else HandedOut(ranges + [Range(Times(c, per), Min(Times(c, per) + per, n))], n, per, c + 1)
  {
    assert Times(c + 1, per) == Times(c, per) + per;
    if n + chunks - 1 < WORD {
      ShareReaches(n, chunks, per);
      Grows(per, c + 1, chunks);
      Grows(per, 1, c);
    } else {
      ShareWraps(n, chunks);
      assert Times(c, 0) == 0;
    }
    if Times(c, per) < n {
      TilesMore(ranges, Min(per, n), Times(c, per), Min(Times(c, per) + per, n));
    }
  }

  /** The caller's share closes the gap, exactly when the shares are not empty. */
  lemma OwnShare(ranges: seq<Range>, n: nat, chunks: nat, per: nat)
    requires 1 <= chunks <= n < WORD && per == Share(n, chunks)
    requires Tiles(ranges, Min(per, n), if n + chunks - 1 < WORD then n else 0)
    ensures OnceEach(ranges + [Range(0, Min(per, n))], n) <==> n + chunks - 1 < WORD
  {
    forall i: nat
      ensures Count(ranges + [Range(0, Min(per, n))], i) == Count(ranges, i) + if i < Min(per, n) then 1 else 0
    {
      CountAppend(ranges, Range(0, Min(per, n)), i);
    }
    if n + chunks - 1 < WORD {
      ShareReaches(n, chunks, per);
    } else {
      ShareWraps(n, chunks);
      assert Count(ranges + [Range(0, Min(per, n))], 0) == 0;
    }
  }

  /** When the loop ends, whichever way, the jobs reach n unless the shares are empty. */
  lemma AllHandedOut(ranges: seq<Range>, n: nat, chunks: nat, per: nat, c: nat)
    requires 1 <= c <= chunks <= n < WORD && per == Share(n, chunks) && HandedOut(ranges, n, per, c)
    requires c == chunks || Times(c, per) >= n
    ensures Tiles(ranges, Min(per, n), if n + chunks - 1 < WORD then n else 0)
  {
    if n + chunks - 1 < WORD {
      ShareReaches(n, chunks, per);
    } else {
      ShareWraps(n, chunks);
      assert Times(c, 0) == 0;
    }
  }

  /** One turn of the loop. */
  lemma StepFits(ranges: seq<Range>, n: nat, chunks: nat, per: nat, c: nat, begin: nat, end: nat)
    requires 1 <= c < chunks <= n < WORD && per == Share(n, chunks) && HandedOut(ranges, n, per, c)
    requires begin == Wrap(Times(c, per)) && end == Min(Wrap(begin + per), n)
    ensures begin == Times(c, per) && (begin < n ==> HandedOut(ranges + [Range(begin, end)], n, per, c + 1))
    ensures begin < n ==> begin <= end <= begin + per
  {
    HandOne(ranges, n, chunks, per, c);
    Fits(Times(c, per));
    Fits(begin + per);
  }

  /** At most count ranges, none longer than per. */
  ghost predicate Short(ranges: seq<Range>, count: nat, per: nat) {
    |ranges| <= count && forall i :: 0 <= i < |ranges| ==> ranges[i].begin <= ranges[i].end <= ranges[i].begin + per
  }

  lemma ShortMore(ranges: seq<Range>, count: nat, per: nat, r: Range)
    requires Short(ranges, count, per) && r.begin <= r.end <= r.begin + per
    ensures Short(ranges + [r], count + 1, per)
  {
  }

  /** The chunked path: all but the caller's own share. */
  method HandOut(n: nat, chunks: nat, per: nat) returns (ranges: seq<Range>)
    requires 1 <= chunks <= n < WORD && per == Share(n, chunks)
    ensures Tiles(ranges, Min(per, n), if n + chunks - 1 < WORD then n else 0)
    ensures Short(ranges, chunks - 1, per)
  {
    ranges := [];
    assert Times(1, per) == per;
    var c := 1;
    while c < chunks
      invariant 1 <= c <= chunks && HandedOut(ranges, n, per, c)
      invariant Short(ranges, c - 1, per)
    {
      var begin := Wrap(Times(c, per));
      var end := Min(Wrap(begin + per), n);
      StepFits(ranges, n, chunks, per, c, begin, end);
      if begin >= n {
        break;
      }
      ShortMore(ranges, c - 1, per, Range(begin, end));
      ranges := ranges + [Range(begin, end)];
      c := c + 1;
    }
    AllHandedOut(ranges, n, chunks, per, c);
  }

  /** No more ranges than chunks, and none longer than n over chunks, rounded up. */
  ghost predicate Balanced(ranges: seq<Range>, n: nat, chunks: nat) {
    |ranges| <= chunks &&
    forall i :: 0 <= i < |ranges| ==>
      ranges[i].begin <= ranges[i].end && Times(chunks, ranges[i].end - ranges[i].begin) < n + chunks
  }

  lemma ShortIsBalanced(ranges: seq<Range>, n: nat, chunks: nat, per: nat)
    requires 0 < chunks <= n && n + chunks - 1 < WORD && per == Share(n, chunks) && Short(ranges, chunks, per)
    ensures Balanced(ranges, n, chunks)
  {
    ShareReaches(n, chunks, per);
    forall i | 0 <= i < |ranges| ensures Times(chunks, ranges[i].end - ranges[i].begin) < n + chunks {
      Grows(chunks, ranges[i].end - ranges[i].begin, per);
    }
  }

  /** Every item is in exactly one range if and only if n plus the chunk count fits the 32-bit sum; past
      that the shares come out empty and nothing is processed. workers is 1 when there is no pool. */
  method Split(workers: nat, n: nat) returns (ranges: seq<Range>)
    requires workers < WORD && n < WORD
    ensures OnceEach(ranges, n) <==> workers <= 1 || n == 0 || n + Min(workers, n) - 1 < WORD
    ensures OnceEach(ranges, n) && n > 0 ==> Balanced(ranges, n, Min(if workers > 1 then workers else 1, n))
  {
    if n == 0 {
      return [];
    }
    if workers <= 1 {
      TilesMore([], 0, 0, n);
      return [] + [Range(0, n)];
    }
    var chunks := Min(workers, n);
    var per := Share(n, chunks);
    ranges := HandOut(n, chunks, per);
    OwnShare(ranges, n, chunks, per);
    ShortMore(ranges, chunks - 1, per, Range(0, Min(per, n)));
    ranges := ranges + [Range(0, Min(per, n))];
    if n + chunks - 1 < WORD {
      ShortIsBalanced(ranges, n, chunks, per);
    }
  }
}
