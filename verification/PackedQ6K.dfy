/** The 6-bit block Q6_K: its decoder in src/quant.c and its fused kernel in src/cpu_ops.c. */
module PackedQ6K {
  import opened PackedBits
  import opened Division
  import opened Spans

  /** Scales are signed bytes. */
  datatype Block = Block(ql: seq<bv8>, qh: seq<bv8>, scales: seq<int>, d: real)

  predicate Valid(q: Block) {
    |q.ql| == 128 && |q.qh| == 64 && |q.scales| == 16
  }

  /** Four low bits (or the four high ones) of one byte joined with bit pair p of another, less 32. */
  function Six(nibble: bv8, qh: bv8, p: nat): int
    requires p < 4
  {
    (nibble | (((qh >> (2 * p)) & 3) << 4)) as int - 32
  }

  function Scaled(d: real, sc: int, v: int): real {
    Mul(Mul(d, sc as real), v as real)
  }

  /** Weight l of plane p of a half; both halves use their own 64 ql bytes, 32 qh bytes and 8 scales. */
  function Plane(q: Block, half: nat, p: nat, l: nat): real
    requires Valid(q) && half < 2 && p < 4 && l < 32
  {
    var low := q.ql[half * 64 + (if p % 2 == 0 then 0 else 32) + l];
    Scaled(q.d, q.scales[half * 8 + l / 16 + 2 * p],
           Six(if p < 2 then low & 0x0F else low >> 4, q.qh[half * 32 + l], p))
  }

  function Values(q: Block): (v: seq<real>)
    requires Valid(q)
    ensures |v| == 256 && forall i :: 0 <= i < 256 ==> v[i] == Plane(q, i / 128, i % 128 / 32, i % 32)
  {
    seq(256, i requires 0 <= i < 256 => Plane(q, i / 128, i % 128 / 32, i % 32))
  }

  lemma ValueAt(q: Block, half: nat, p: nat, l: nat, i: nat)
    requires Valid(q) && half < 2 && p < 4 && l < 32 && i == half * 128 + p * 32 + l
    ensures Values(q)[i] == Plane(q, half, p, l)
  {
    DivUnique(i, 128, half, p * 32 + l);
    DivUnique(p * 32 + l, 32, p, l);
    DivUnique(i, 32, 4 * half + p, l);
  }

  // ----- packing -----

  /** The block that holds 256 codes from -32 to 31, each 32 up: the low four bits of two codes 64 apart share a byte,
      and so do the high two bits of four codes 32 apart. */
  function Pack(codes: seq<int>, scales: seq<int>, d: real): (q: Block)
    requires CodesIn(codes, 256, -32, 32) && |scales| == 16
    ensures Valid(q)
  {
    Block(seq(128, i requires 0 <= i < 128 => LowBits(codes, i / 64 * 128 + i % 64)),
          seq(64, i requires 0 <= i < 64 => Byte(Pairs(HighBits(codes, i / 32 * 128 + i % 32)))), scales, d)
  }

  function LowBits(codes: seq<int>, i: nat): bv8
    requires CodesIn(codes, 256, -32, 32) && i + 64 < 256
  {
    Nibbles((codes[i] + 32) % 16, (codes[i + 64] + 32) % 16)
  }

  function HighBits(codes: seq<int>, i: nat): (s: seq<Digit4>)
    requires CodesIn(codes, 256, -32, 32) && i + 96 < 256
    ensures |s| == 4
  {
    [(codes[i] + 32) / 16, (codes[i + 32] + 32) / 16, (codes[i + 64] + 32) / 16, (codes[i + 96] + 32) / 16]
  }

  lemma SixIsJoin(nibble: bv8, h: bv8, p: nat)
    requires p < 4 && nibble as int < 16
    ensures Six(nibble, h, p) == nibble as int + 16 * Two(h, p) - 32
  {
    JoinSix(nibble, (h >> (2 * p)) & 3);
  }

  /** Six bits come back from the two bytes that hold them. */
  lemma SixHeld(nibble: bv8, s: seq<Digit4>, p: nat, u: nat)
    requires p < |s| == 4 && u < 64 && nibble as int == u % 16 && s[p] == u / 16
    ensures Six(nibble, Byte(Pairs(s)), p) == u - 32
  {
    PairsHeld(s, p);
    SixIsJoin(nibble, Byte(Pairs(s)), p);
  }

  lemma HighAt(codes: seq<int>, i: nat, p: nat)
    requires CodesIn(codes, 256, -32, 32) && i + 96 < 256 && p < 4
    ensures HighBits(codes, i)[p] == (codes[i + 32 * p] + 32) / 16
  {
  }

  lemma LowHeld(codes: seq<int>, i: nat)
    requires CodesIn(codes, 256, -32, 32) && i + 64 < 256
    ensures (LowBits(codes, i) & 0x0F) as int == (codes[i] + 32) % 16
    ensures (LowBits(codes, i) >> 4) as int == (codes[i + 64] + 32) % 16
  {
    NibblesBack((codes[i] + 32) % 16, (codes[i + 64] + 32) % 16);
  }

  lemma BytesOf(codes: seq<int>, scales: seq<int>, d: real, half: nat, r: nat, l: nat)
    requires CodesIn(codes, 256, -32, 32) && |scales| == 16 && half < 2 && r < 2 && l < 32
    ensures Pack(codes, scales, d).ql[half * 64 + r * 32 + l] == LowBits(codes, half * 128 + r * 32 + l)
    ensures Pack(codes, scales, d).qh[half * 32 + l] == Byte(Pairs(HighBits(codes, half * 128 + l)))
  {
    DivUnique(half * 64 + r * 32 + l, 64, half, r * 32 + l);
    DivUnique(half * 32 + l, 32, half, l);
  }

  /** The code in plane p of a half. */
  lemma SixBack(codes: seq<int>, half: nat, p: nat, l: nat)
    requires CodesIn(codes, 256, -32, 32) && half < 2 && p < 4 && l < 32
    ensures var low := LowBits(codes, half * 128 + (if p % 2 == 0 then 0 else 32) + l);
            Six(if p < 2 then low & 0x0F else low >> 4, Byte(Pairs(HighBits(codes, half * 128 + l))), p) ==
            codes[half * 128 + p * 32 + l]
  {
    var at := half * 128 + (if p % 2 == 0 then 0 else 32) + l;
    var low, u := LowBits(codes, at), codes[half * 128 + p * 32 + l] + 32;
    LowHeld(codes, at);
    HighAt(codes, half * 128 + l, p);
    SixHeld(if p < 2 then low & 0x0F else low >> 4, HighBits(codes, half * 128 + l), p, u);
  }

  lemma PlaneBack(codes: seq<int>, scales: seq<int>, d: real, half: nat, p: nat, l: nat)
    requires CodesIn(codes, 256, -32, 32) && |scales| == 16 && half < 2 && p < 4 && l < 32
    ensures Plane(Pack(codes, scales, d), half, p, l) ==
            Scaled(d, scales[half * 8 + l / 16 + 2 * p], codes[half * 128 + p * 32 + l])
  {
    BytesOf(codes, scales, d, half, p % 2, l);
    SixBack(codes, half, p, l);
  }

  lemma ScaleAt(half: nat, p: nat, l: nat, i: nat)
    requires half < 2 && p < 4 && l < 32 && i == half * 128 + p * 32 + l
    ensures i / 16 == half * 8 + l / 16 + 2 * p
  {
    DivUnique(i, 16, half * 8 + l / 16 + 2 * p, l % 16);
  }

  lemma ValueBack(codes: seq<int>, scales: seq<int>, d: real, half: nat, p: nat, l: nat, i: nat)
    requires CodesIn(codes, 256, -32, 32) && |scales| == 16 && half < 2 && p < 4 && l < 32
    requires i == half * 128 + p * 32 + l
    ensures i / 16 < 16 && Values(Pack(codes, scales, d))[i] == Scaled(d, scales[i / 16], codes[i])
  {
    ValueAt(Pack(codes, scales, d), half, p, l, i);
    PlaneBack(codes, scales, d, half, p, l);
    ScaleAt(half, p, l, i);
  }

  /** Decoding gives every packed code back, times the scale of its sixteen and the block's. */
  lemma PackedBack(codes: seq<int>, scales: seq<int>, d: real, i: nat)
    requires CodesIn(codes, 256, -32, 32) && |scales| == 16 && i < 256
    ensures Values(Pack(codes, scales, d))[i] == Mul(Mul(d, scales[i / 16] as real), codes[i] as real)
  {
    ValueBack(codes, scales, d, i / 128, i % 128 / 32, i % 32, i);
  }

  // ----- decoding -----

  /** The four weights of byte l of a half, as both functions unpack them. */
  function Quad(q: Block, half: nat, l: nat): (t: seq<real>)
    requires Valid(q) && half < 2 && l < 32
    ensures |t| == 4
  {
    var a, b, h, sc, j := q.ql[half * 64 + l], q.ql[half * 64 + l + 32], q.qh[half * 32 + l], q.scales,
                          half * 8 + l / 16;
    [Scaled(q.d, sc[j], Six(a & 0x0F, h, 0)), Scaled(q.d, sc[j + 2], Six(b & 0x0F, h, 1)),
     Scaled(q.d, sc[j + 4], Six(a >> 4, h, 2)), Scaled(q.d, sc[j + 6], Six(b >> 4, h, 3))]
  }

  lemma QuadIsPlanes(q: Block, half: nat, l: nat)
    requires Valid(q) && half < 2 && l < 32
    ensures Quad(q, half, l)[0] == Plane(q, half, 0, l) && Quad(q, half, l)[1] == Plane(q, half, 1, l)
    ensures Quad(q, half, l)[2] == Plane(q, half, 2, l) && Quad(q, half, l)[3] == Plane(q, half, 3, l)
  {
  }

  lemma QuadAt(q: Block, half: nat, l: nat)
    requires Valid(q) && half < 2 && l < 32
    ensures var v, t, i := Values(q), Quad(q, half, l), half * 128 + l;
            v[i] == t[0] && v[i + 32] == t[1] && v[i + 64] == t[2] && v[i + 96] == t[3]
  {
    QuadIsPlanes(q, half, l);
    ValueAt(q, half, 0, l, half * 128 + l);
    ValueAt(q, half, 1, l, half * 128 + 32 + l);
    ValueAt(q, half, 2, l, half * 128 + 64 + l);
    ValueAt(q, half, 3, l, half * 128 + 96 + l);
  }

  ghost predicate Stripe(y: seq<real>, v: seq<real>, i: nat) {
    i + 96 < |y| == |v| && y[i] == v[i] && y[i + 32] == v[i + 32] && y[i + 64] == v[i + 64] && y[i + 96] == v[i + 96]
  }

  /** The output buffer after l steps of a half: complete halves before it, four stripes in it. */
  ghost predicate Striped(y: seq<real>, v: seq<real>, lo: nat, l: nat) {
    |y| == |v| && lo + 96 + l <= |v| && y[..lo] == v[..lo] &&
    forall i :: lo <= i < lo + l ==> Stripe(y, v, i)
  }

  /** The four stores of one step. */
  function Put4(y: seq<real>, i: nat, t: seq<real>): (r: seq<real>)
    requires i + 96 < |y| && |t| == 4
    ensures |r| == |y|
  {
    y[i := t[0]][i + 32 := t[1]][i + 64 := t[2]][i + 96 := t[3]]
  }

  lemma StripedStep(y: seq<real>, v: seq<real>, lo: nat, l: nat, t: seq<real>)
    requires Striped(y, v, lo, l) && l < 32 && lo + 96 + l < |v| && |t| == 4
    requires v[lo + l] == t[0] && v[lo + l + 32] == t[1] && v[lo + l + 64] == t[2] && v[lo + l + 96] == t[3]
    ensures Striped(Put4(y, lo + l, t), v, lo, l + 1)
  {
    var y' := Put4(y, lo + l, t);
    forall i | lo <= i < lo + l + 1 ensures Stripe(y', v, i) {
      assert i < lo + l ==> Stripe(y, v, i);
    }
  }

  lemma StripedWhole(y: seq<real>, v: seq<real>, lo: nat)
    requires Striped(y, v, lo, 32)
    ensures y[..lo + 128] == v[..lo + 128]
  {
    forall i | lo <= i < lo + 128 ensures y[i] == v[i] {
      var k := if i < lo + 32 then 0 else if i < lo + 64 then 32 else if i < lo + 96 then 64 else 96;
      assert Stripe(y, v, i - k);
    }
  }

  /** deq_q6_k on one block, whose stores are 32 apart. */
  method Dequantize(q: Block) returns (y: seq<real>)
    requires Valid(q)
    ensures y == Values(q)
  {
    y := seq(256, _ => 0.0);
    y := FillHalf(q, 0, 0, y);
    y := FillHalf(q, 1, 128, y);
    assert y[..256] == y && Values(q)[..256] == Values(q);
  }

  /** One turn of the outer loop, for the half that starts at lo. */
  method FillHalf(q: Block, half: nat, lo: nat, before: seq<real>) returns (y: seq<real>)
    requires Valid(q) && half < 2 && lo == half * 128 && |before| == 256 && before[..lo] == Values(q)[..lo]
    ensures |y| == 256 && y[..lo + 128] == Values(q)[..lo + 128]
  {
    y := before;
    ghost var v := Values(q);
    for l := 0 to 32
      invariant Striped(y, v, lo, l)
    {
      var t := Quad(q, half, l);
      QuadAt(q, half, l);
      StripedStep(y, v, lo, l, t);
      y := Put4(y, lo + l, t);
    }
    StripedWhole(y, v, lo);
  }

  lemma FourTerms(c: seq<real>, x: seq<real>, lo: nat, w: nat, m: nat)
    requires m < w && lo + 4 * w <= |c| && lo + 4 * w <= |x|
    ensures Width(4, w) == 4 * w
    ensures PlaneTerms(c, x, lo, w, 4, m) ==
            Mul(c[lo + m], x[lo + m]) + Mul(c[lo + w + m], x[lo + w + m]) + Mul(c[lo + 2 * w + m], x[lo + 2 * w + m]) +
            Mul(c[lo + 3 * w + m], x[lo + 3 * w + m])
  {
    WidthTimes(4, w);
    WidthTimes(3, w);
    WidthTimes(2, w);
    WidthTimes(1, w);
    var p1 := PlaneTerms(c, x, lo + w, w, 3, m);
    var p2 := PlaneTerms(c, x, lo + w + w, w, 2, m);
    var p3 := PlaneTerms(c, x, lo + w + w + w, w, 1, m);
    var p4 := PlaneTerms(c, x, lo + w + w + w + w, w, 0, m);
    assert p1 == Mul(c[lo + w + m], x[lo + w + m]) + p2;
    assert p2 == Mul(c[lo + 2 * w + m], x[lo + 2 * w + m]) + p3;
    assert p3 == Mul(c[lo + 3 * w + m], x[lo + 3 * w + m]) + p4;
  }

  /** The accumulator after l steps of the half that starts at lo. */
  ghost predicate Woven(v: seq<real>, x: seq<real>, lo: nat, l: nat, a: real, s: real) {
    Width(4, 32) == 128 && l <= 32 && lo + 128 <= |v| && lo + 128 <= |x| && s == a + PlanesSum(v, x, lo, 32, 4, l)
  }

  lemma WovenStart(v: seq<real>, x: seq<real>, lo: nat, a: real)
    requires lo + 128 <= |v| && lo + 128 <= |x|
    ensures Woven(v, x, lo, 0, a, a)
  {
    WidthTimes(4, 32);
    PlanesStart(v, x, lo, 32, 4);
  }

  lemma WovenStep(v: seq<real>, x: seq<real>, lo: nat, l: nat, a: real, s: real, s': real)
    requires Woven(v, x, lo, l, a, s) && l < 32
    requires s' == s + Mul(v[lo + l], x[lo + l]) + Mul(v[lo + 32 + l], x[lo + 32 + l]) +
                   Mul(v[lo + 64 + l], x[lo + 64 + l]) + Mul(v[lo + 96 + l], x[lo + 96 + l])
    ensures Woven(v, x, lo, l + 1, a, s')
  {
    FourTerms(v, x, lo, 32, l);
    PlanesStep(v, x, lo, 32, 4, l);
  }

  lemma WovenWhole(v: seq<real>, x: seq<real>, lo: nat, a: real, s: real)
    requires Woven(v, x, lo, 32, a, s)
    ensures s == a + Span(v, x, lo, lo + 128)
  {
    PlanesWhole(v, x, lo, 32, 4);
  }

  /** The kernel's work on one half, which starts at lo. */
  method HalfSum(q: Block, x: seq<real>, half: nat, lo: nat, a: real) returns (acc: real)
    requires Valid(q) && |x| == 256 && half < 2 && lo == half * 128
    ensures acc == a + Span(Values(q), x, lo, lo + 128)
  {
    acc := a;
    ghost var v := Values(q);
    WovenStart(v, x, lo, a);
    for l := 0 to 32
      invariant Woven(v, x, lo, l, a, acc)
    {
      var t := Quad(q, half, l);
      ghost var s := acc;
      acc := acc + Mul(t[0], x[lo + l]);
      acc := acc + Mul(t[1], x[lo + 32 + l]);
      acc := acc + Mul(t[2], x[lo + 64 + l]);
      acc := acc + Mul(t[3], x[lo + 96 + l]);
      QuadAt(q, half, l);
      WovenStep(v, x, lo, l, a, s, acc);
    }
    WovenWhole(v, x, lo, a, acc);
  }

  /** The kernel's work on one block: both halves. */
  method BlockSum(q: Block, x: seq<real>, a: real) returns (acc: real)
    requires Valid(q) && |x| == 256
    ensures acc == a + Dot(Values(q), x)
  {
    acc := HalfSum(q, x, 0, 0, a);
    acc := HalfSum(q, x, 1, 128, acc);
    SpanSplit(Values(q), x, 0, 128, 256);
  }

  // ----- whole rows -----

  predicate ValidRow(row: seq<Block>) {
    forall b :: 0 <= b < |row| ==> Valid(row[b])
  }

  function Blocks(row: seq<Block>): (vs: seq<seq<real>>)
    requires ValidRow(row)
    ensures |vs| == |row| && AllOfLength(vs, 256) && forall b :: 0 <= b < |row| ==> vs[b] == Values(row[b])
  {
    seq(|row|, b requires 0 <= b < |row| => Values(row[b]))
  }

  /** deq_q6_k over a row. */
  method DequantizeRow(row: seq<Block>) returns (y: seq<real>)
    requires ValidRow(row)
    ensures y == RowOf(Blocks(row))
  {
    y := [];
    for b := 0 to |row|
      invariant y == RowOf(Blocks(row)[..b])
    {
      var out := Dequantize(row[b]);
      assert Blocks(row)[..b + 1][..b] == Blocks(row)[..b];
      y := y + out;
    }
    assert Blocks(row)[..|row|] == Blocks(row);
  }

  /** The accumulator after b blocks. */
  ghost predicate Sofar(row: seq<Block>, x: seq<real>, b: nat, acc: real)
    requires ValidRow(row) && |x| == |row| * 256
  {
    b <= |row| && acc == RowSofar(Blocks(row), 256, x, b)
  }

  lemma BlockStep(row: seq<Block>, x: seq<real>, b: nat, lo: nat, acc: real) returns (xb: seq<real>)
    requires ValidRow(row) && |x| == |row| * 256 && b < |row| && lo == b * 256 && Sofar(row, x, b, acc)
    ensures lo + 256 <= |x| && xb == x[lo..lo + 256] && Sofar(row, x, b + 1, acc + Dot(Values(row[b]), xb))
  {
    ValueStep(Blocks(row), 256, x, b, lo);
    xb := x[lo..lo + 256];
    assert Blocks(row)[b] == Values(row[b]);
  }

  /** The kernel on one row equals dequantizing the row and taking its dot product with x. */
  method RowDot(row: seq<Block>, x: seq<real>) returns (acc: real)
    requires ValidRow(row) && |x| == |row| * 256
    ensures acc == RowProduct(Blocks(row), 256, x)
  {
    acc := 0.0;
    RowEnds(Blocks(row), 256, x);
    for b := 0 to |row|
      invariant Sofar(row, x, b, acc)
    {
      var lo := b * 256;
      ghost var xb := BlockStep(row, x, b, lo, acc);
      acc := BlockSum(row[b], x[lo..lo + 256], acc);
    }
  }

  ghost predicate ValidRows(w: seq<seq<Block>>, x: seq<real>) {
    forall r :: 0 <= r < |w| ==> ValidRow(w[r]) && |x| == |w[r]| * 256
  }

  /** The result of every row. */
  ghost function Results(w: seq<seq<Block>>, x: seq<real>): (f: seq<real>)
    requires ValidRows(w, x)
    ensures |f| == |w| && forall r :: 0 <= r < |w| ==> f[r] == RowProduct(Blocks(w[r]), 256, x)
  {
    seq(|w|, r requires 0 <= r < |w| => RowProduct(Blocks(w[r]), 256, x))
  }

  /** rows_q6_k: rows r0 up to r1 of the product, and no other entry of y. */
  method Rows(w: seq<seq<Block>>, x: seq<real>, y: array<real>, r0: nat, r1: nat)
    requires r0 <= r1 <= |w| <= y.Length && ValidRows(w, x)
    modifies y
    ensures Filled(y[..], old(y[..]), Results(w, x), r0, r1)
  {
    ghost var before, f := y[..], Results(w, x);
    for r := r0 to r1
      invariant Filled(y[..], before, f, r0, r)
    {
      var acc := RowDot(w[r], x);
      Store(y, before, f, r0, r, acc);
    }
  }
}
