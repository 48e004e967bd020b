/** Dot products over stretches of two sequences of reals. */
module Spans {

  function Mul(a: real, b: real): real {
    a * b
  }

  /** The terms from lo up to hi of the dot product of v and x. */
  function Span(v: seq<real>, x: seq<real>, lo: nat, hi: nat): real
    requires lo <= hi <= |v| && hi <= |x|
    decreases |v|, hi
  {
    if lo == hi then 0.0 else Span(v, x, lo, hi - 1) + Mul(v[hi - 1], x[hi - 1])
  }

  function Dot(v: seq<real>, x: seq<real>): real
    requires |v| == |x|
  {
    Span(v, x, 0, |v|)
  }

  lemma {:induction false} SpanSplit(v: seq<real>, x: seq<real>, lo: nat, mid: nat, hi: nat)
    requires lo <= mid <= hi <= |v| && hi <= |x|
    ensures Span(v, x, lo, hi) == Span(v, x, lo, mid) + Span(v, x, mid, hi)
    decreases hi
  {
    if mid < hi {
      SpanSplit(v, x, lo, mid, hi - 1);
    }
  }

  lemma MulSum(d: real, a: real, c: real, x: real)
    ensures Mul(d, a + Mul(c, x)) == Mul(d, a) + Mul(Mul(c, d), x)
  {
  }

  /** A common factor comes out of the sum. */
  lemma {:induction false} SpanScale(v: seq<real>, c: seq<real>, x: seq<real>, d: real, lo: nat, hi: nat)
    requires lo <= hi <= |v| == |c| && hi <= |x| && forall i :: 0 <= i < |v| ==> v[i] == Mul(c[i], d)
    ensures Span(v, x, lo, hi) == Mul(d, Span(c, x, lo, hi))
    decreases hi
  {
    if lo < hi {
      SpanScale(v, c, x, d, lo, hi - 1);
      MulSum(d, Span(c, x, lo, hi - 1), c[hi - 1], x[hi - 1]);
    }
  }

  /** A span depends on its own stretch only. */
  lemma {:induction false} SpanShift(v: seq<real>, x: seq<real>, off: nat, w: seq<real>, z: seq<real>, hi: nat)
    requires hi <= |w| && hi <= |z| && off + hi <= |v| && off + hi <= |x|
    requires forall i :: 0 <= i < hi ==> v[off + i] == w[i] && x[off + i] == z[i]
    ensures Span(v, x, off, off + hi) == Span(w, z, 0, hi)
    decreases hi
  {
    if hi > 0 {
      SpanShift(v, x, off, w, z, hi - 1);
    }
  }

  /** An accumulator that has added the first n terms from lo on to what it held before. */
  ghost predicate Partial(v: seq<real>, x: seq<real>, before: real, s: real, lo: nat, n: nat) {
    lo + n <= |v| && lo + n <= |x| && s == before + Span(v, x, lo, lo + n)
  }

  lemma PartialStep(v: seq<real>, x: seq<real>, before: real, s: real, lo: nat, n: nat, c: real)
    requires Partial(v, x, before, s, lo, n) && lo + n < |v| && lo + n < |x| && v[lo + n] == c
    ensures Partial(v, x, before, s + Mul(c, x[lo + n]), lo, n + 1)
  {
  }

  lemma Quarters(v: seq<real>, x: seq<real>, lo: nat, n: nat)
    requires lo + 4 * n <= |v| && lo + 4 * n <= |x|
    ensures Span(v, x, lo, lo + 4 * n) == Span(v, x, lo, lo + n) + Span(v, x, lo + n, lo + 2 * n) +
                                          Span(v, x, lo + 2 * n, lo + 3 * n) + Span(v, x, lo + 3 * n, lo + 4 * n)
  {
    SpanSplit(v, x, lo, lo + n, lo + 4 * n);
    SpanSplit(v, x, lo + n, lo + 2 * n, lo + 4 * n);
    SpanSplit(v, x, lo + 2 * n, lo + 3 * n, lo + 4 * n);
  }

  // ----- planes: p stretches of m terms each, w apart -----

  function Width(p: nat, w: nat): nat {
    if p == 0 then 0 else w + Width(p - 1, w)
  }

  ghost function PlanesSum(v: seq<real>, x: seq<real>, lo: nat, w: nat, p: nat, m: nat): real
    requires m <= w && lo + Width(p, w) <= |v| && lo + Width(p, w) <= |x|
    decreases |v|, p
  {
    if p == 0 then 0.0 else Span(v, x, lo, lo + m) + PlanesSum(v, x, lo + w, w, p - 1, m)
  }

  /** The m-th term of every plane. */
  ghost function PlaneTerms(v: seq<real>, x: seq<real>, lo: nat, w: nat, p: nat, m: nat): real
    requires m < w && lo + Width(p, w) <= |v| && lo + Width(p, w) <= |x|
    decreases |v|, p
  {
    if p == 0 then 0.0 else Mul(v[lo + m], x[lo + m]) + PlaneTerms(v, x, lo + w, w, p - 1, m)
  }

  lemma {:induction false} PlanesStart(v: seq<real>, x: seq<real>, lo: nat, w: nat, p: nat)
    requires lo + Width(p, w) <= |v| && lo + Width(p, w) <= |x|
    ensures PlanesSum(v, x, lo, w, p, 0) == 0.0
    decreases p
  {
    if p > 0 {
      PlanesStart(v, x, lo + w, w, p - 1);
    }
  }

  lemma {:induction false} PlanesStep(v: seq<real>, x: seq<real>, lo: nat, w: nat, p: nat, m: nat)
    requires m < w && lo + Width(p, w) <= |v| && lo + Width(p, w) <= |x|
    ensures PlanesSum(v, x, lo, w, p, m + 1) == PlanesSum(v, x, lo, w, p, m) + PlaneTerms(v, x, lo, w, p, m)
    decreases p
  {
    if p > 0 {
      PlanesStep(v, x, lo + w, w, p - 1, m);
    }
  }

  /** Complete planes are one stretch. */
  lemma {:induction false} PlanesWhole(v: seq<real>, x: seq<real>, lo: nat, w: nat, p: nat)
    requires lo + Width(p, w) <= |v| && lo + Width(p, w) <= |x|
    ensures PlanesSum(v, x, lo, w, p, w) == Span(v, x, lo, lo + Width(p, w))
    decreases p
  {
    if p > 0 {
      PlanesWhole(v, x, lo + w, w, p - 1);
      SpanSplit(v, x, lo, lo + w, lo + Width(p, w));
    }
  }

  // ----- rows of blocks -----

  function RowOf(vs: seq<seq<real>>): seq<real> {
    if vs == [] then [] else RowOf(vs[..|vs| - 1]) + vs[|vs| - 1]
  }

  ghost predicate AllOfLength(vs: seq<seq<real>>, w: nat) {
    forall i :: 0 <= i < |vs| ==> |vs[i]| == w
  }

  lemma {:induction false} RowLength(vs: seq<seq<real>>, w: nat)
    requires AllOfLength(vs, w)
    ensures |RowOf(vs)| == Width(|vs|, w)
  {
    if vs != [] {
      RowLength(vs[..|vs| - 1], w);
    }
  }

  /** Block b of the row. */
  lemma {:induction false} RowBlock(vs: seq<seq<real>>, w: nat, b: nat)
    requires AllOfLength(vs, w) && b < |vs|
    ensures Width(b, w) + w <= |RowOf(vs)| && RowOf(vs)[Width(b, w)..Width(b, w) + w] == vs[b]
  {
    RowLength(vs, w);
    RowLength(vs[..|vs| - 1], w);
    if b < |vs| - 1 {
      RowBlock(vs[..|vs| - 1], w, b);
    }
  }

  /** One block more of a row: its own dot product, taken from the block and its stretch of x. */
  lemma RowStep(vs: seq<seq<real>>, x: seq<real>, w: nat, b: nat)
    requires AllOfLength(vs, w) && b < |vs| && |x| == |RowOf(vs)|
    ensures Width(b, w) + w <= |x| && Width(b + 1, w) == Width(b, w) + w
    ensures Span(RowOf(vs), x, 0, Width(b, w) + w) ==
            Span(RowOf(vs), x, 0, Width(b, w)) + Dot(vs[b], x[Width(b, w)..Width(b, w) + w])
  {
    RowBlock(vs, w, b);
    var off, row := Width(b, w), RowOf(vs);
    SpanSplit(row, x, 0, off, off + w);
    forall i | 0 <= i < w ensures row[off + i] == vs[b][i] {
      assert row[off..off + w][i] == vs[b][i];
    }
    SpanShift(row, x, off, vs[b], x[off..off + w], w);
  }

  lemma {:induction false} WidthTimes(p: nat, w: nat)
    ensures Width(p, w) == p * w
  {
    if p > 0 {
      WidthTimes(p - 1, w);
    }
  }

  /** The reference: the dot product of a whole dequantized row, given as blocks of w values, with x. */
  function RowProduct(vs: seq<seq<real>>, w: nat, x: seq<real>): real
    requires AllOfLength(vs, w) && |x| == |vs| * w
  {
    RowLength(vs, w);
    WidthTimes(|vs|, w);
    Dot(RowOf(vs), x)
  }

  lemma {:induction false} WidthGrows(b: nat, n: nat, w: nat)
    requires b <= n
    ensures Width(b, w) <= Width(n, w)
    decreases n
  {
    if b < n {
      WidthGrows(b, n - 1, w);
    }
  }

  /** The part of that product the first b blocks make. */
  function RowSofar(vs: seq<seq<real>>, w: nat, x: seq<real>, b: nat): real
    requires AllOfLength(vs, w) && |x| == |vs| * w && b <= |vs|
  {
    RowLength(vs, w);
    WidthTimes(|vs|, w);
    WidthGrows(b, |vs|, w);
    Span(RowOf(vs), x, 0, Width(b, w))
  }

  /** No blocks make nothing, all of them the whole product. */
  lemma RowEnds(vs: seq<seq<real>>, w: nat, x: seq<real>)
    requires AllOfLength(vs, w) && |x| == |vs| * w
    ensures RowSofar(vs, w, x, 0) == 0.0 && RowSofar(vs, w, x, |vs|) == RowProduct(vs, w, x)
  {
    RowLength(vs, w);
    WidthTimes(|vs|, w);
  }

  /** One block more, its weights summed as they are. */
  lemma ValueStep(vs: seq<seq<real>>, w: nat, x: seq<real>, b: nat, lo: nat)
    requires AllOfLength(vs, w) && |x| == |vs| * w && b < |vs| && lo == b * w
    ensures lo + w <= |x| && RowSofar(vs, w, x, b + 1) == RowSofar(vs, w, x, b) + Dot(vs[b], x[lo..lo + w])
  {
    RowLength(vs, w);
    WidthTimes(|vs|, w);
    WidthTimes(b, w);
    RowStep(vs, x, w, b);
  }

  /** One block more: the scale taken out of the block's sum is put back by one multiplication. */
  lemma ScaledStep(vs: seq<seq<real>>, w: nat, x: seq<real>, b: nat, lo: nat, codes: seq<real>, d: real, s: real)
    requires AllOfLength(vs, w) && |x| == |vs| * w && b < |vs| && lo == b * w && lo + w <= |x| && |codes| == w
    requires (forall i :: 0 <= i < w ==> vs[b][i] == Mul(codes[i], d)) && s == Dot(codes, x[lo..lo + w])
    ensures RowSofar(vs, w, x, b + 1) == RowSofar(vs, w, x, b) + Mul(d, s)
  {
    ValueStep(vs, w, x, b, lo);
    SpanScale(vs[b], codes, x[lo..lo + w], d, 0, w);
  }

  // ----- rows of results -----

  /** Entries lo up to hi of an output hold their results, the others what they held before. */
  ghost predicate Filled<T>(y: seq<T>, before: seq<T>, f: seq<T>, lo: nat, hi: nat) {
    |y| == |before| && lo <= hi <= |f| <= |y| &&
    forall i :: 0 <= i < |y| ==> y[i] == if lo <= i < hi then f[i] else before[i]
  }

  lemma FillNext<T>(y: seq<T>, before: seq<T>, f: seq<T>, lo: nat, hi: nat)
    requires Filled(y, before, f, lo, hi) && hi < |f|
    ensures Filled(y[hi := f[hi]], before, f, lo, hi + 1)
  {
  }

  /** One store of a row loop. */
  method Store<T>(y: array<T>, ghost before: seq<T>, ghost f: seq<T>, ghost lo: nat, r: nat, value: T)
    requires Filled(y[..], before, f, lo, r) && r < |f| && value == f[r]
    modifies y
    ensures Filled(y[..], before, f, lo, r + 1)
  {
    FillNext(y[..], before, f, lo, r);
    ghost var was := y[..];
    y[r] := value;
    assert y[..] == was[r := value];
  }

  // ----- the stores of a row loop -----

  datatype Put<T> = Put(row: nat, value: T)

  /** Rows lo up to hi, each stored once with its result, in order. */
  ghost function RowLog<T>(f: seq<T>, lo: nat, hi: nat): (log: seq<Put<T>>)
    requires lo < hi ==> hi <= |f|
    ensures |log| == if lo < hi then hi - lo else 0
    decreases hi
  {
    if hi <= lo then [] else RowLog(f, lo, hi - 1) + [Put(hi - 1, f[hi - 1])]
  }

  lemma {:induction false} RowLogAt<T>(f: seq<T>, lo: nat, hi: nat, i: nat)
    requires lo + i < hi <= |f|
    ensures RowLog(f, lo, hi)[i] == Put(lo + i, f[lo + i])
    decreases hi
  {
    if lo + i < hi - 1 {
      RowLogAt(f, lo, hi - 1, i);
    }
  }

  /** The stores so far, and the output they have made. */
  ghost predicate Logged<T>(log: seq<Put<T>>, y: seq<T>, before: seq<T>, f: seq<T>, lo: nat, hi: nat) {
    Filled(y, before, f, lo, hi) && log == RowLog(f, lo, hi)
  }

  /** One store, noted down. */
  method StoreNext<T>(y: array<T>, ghost before: seq<T>, ghost f: seq<T>, ghost lo: nat, r: nat, value: T,
                      ghost log: seq<Put<T>>) returns (ghost log': seq<Put<T>>)
    requires Logged(log, y[..], before, f, lo, r) && r < |f| && value == f[r]
    modifies y
    ensures log' == log + [Put(r, value)] && Logged(log', y[..], before, f, lo, r + 1)
  {
    Store(y, before, f, lo, r, value);
    log' := log + [Put(r, value)];
  }
}
