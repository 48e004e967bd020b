/** The 4-bit block Q4_K with 6-bit sub-scales: its decoder in src/quant.c and its two-rows-at-a-time
    kernel in src/cpu_ops.c. */
module PackedQ4K {
  import opened PackedBits
  import opened Division
  import opened Spans
  import opened Terms

  datatype Block = Block(d: real, dmin: real, scales: seq<bv8>, qs: seq<bv8>)

  predicate Valid(q: Block) {
    |q.scales| == 12 && |q.qs| == 128
  }

  /** get_scale_min_k4 of the decoder. */
  function ScaleMin(j: nat, s: seq<bv8>): (bv8, bv8)
    requires j < 8 && |s| == 12
  {
    if j < 4 then (s[j] & 63, s[j + 4] & 63)
    else ((s[j + 4] & 0x0F) | ((s[j - 4] >> 6) << 4), (s[j + 4] >> 4) | ((s[j] >> 6) << 4))
  }

  /** get_scale_k4 of the kernel. */
  function Scale(j: nat, s: seq<bv8>): bv8
    requires j < 8 && |s| == 12
  {
    if j < 4 then s[j] & 63 else (s[j + 4] & 0x0F) | ((s[j - 4] >> 6) << 4)
  }

  /** get_min_k4 of the kernel. */
  function Low(j: nat, s: seq<bv8>): bv8
    requires j < 8 && |s| == 12
  {
    if j < 4 then s[j + 4] & 63 else (s[j + 4] >> 4) | ((s[j] >> 6) << 4)
  }

  /** The kernel's two helpers unpack what the decoder's one does. */
  lemma SameScales(j: nat, s: seq<bv8>)
    requires j < 8 && |s| == 12
    ensures ScaleMin(j, s) == (Scale(j, s), Low(j, s))
  {
  }

  /** Nibble l of sub-block k: the low halves of 32 bytes, then the high halves. */
  function Nibble(q: Block, k: nat, l: nat): int
    requires Valid(q) && k < 8 && l < 32
  {
    if k % 2 == 0 then (q.qs[k / 2 * 32 + l] & 0x0F) as int else (q.qs[k / 2 * 32 + l] >> 4) as int
  }

  /** Weight l of sub-block k. */
  function Weight(q: Block, k: nat, l: nat): real
    requires Valid(q) && k < 8 && l < 32
  {
    Mul(Mul(q.d, ScaleMin(k, q.scales).0 as int as real), Nibble(q, k, l) as real) -
    Mul(q.dmin, ScaleMin(k, q.scales).1 as int as real)
  }

  function Values(q: Block): (v: seq<real>)
    requires Valid(q)
    ensures |v| == 256 && forall i :: 0 <= i < 256 ==> v[i] == Weight(q, i / 32, i % 32)
  {
    seq(256, i requires 0 <= i < 256 => Weight(q, i / 32, i % 32))
  }

  lemma ValueAt(q: Block, k: nat, l: nat, i: nat)
    requires Valid(q) && k < 8 && l < 32 && i == 32 * k + l
    ensures Values(q)[i] == Weight(q, k, l)
  {
    DivUnique(i, 32, k, l);
  }

  // ----- packing -----

  /** The twelve bytes that hold eight 6-bit scales and eight 6-bit minima: the first four of each whole, with the top
      two bits of the last four above them; the low four bits of the last four share a byte. */
  function PackScales(sc: seq<int>, mins: seq<int>): (s: seq<bv8>)
    requires CodesIn(sc, 8, 0, 64) && CodesIn(mins, 8, 0, 64)
    ensures |s| == 12
  {
    seq(4, j requires 0 <= j < 4 => SixTwo(sc[j], sc[j + 4] / 16)) +
    seq(4, j requires 0 <= j < 4 => SixTwo(mins[j], mins[j + 4] / 16)) +
    seq(4, j requires 0 <= j < 4 => Nibbles(sc[j + 4] % 16, mins[j + 4] % 16))
  }

  function SixTwo(lo: nat, hi: nat): bv8
    requires lo < 64 && hi < 4
  {
    Byte(lo + 64 * hi)
  }

  lemma SixTwoBack(lo: nat, hi: nat)
    requires lo < 64 && hi < 4
    ensures (SixTwo(lo, hi) & 63) as int == lo && (SixTwo(lo, hi) >> 6) as int == hi
  {
    ByteIs(lo + 64 * hi);
    LowSix(SixTwo(lo, hi));
  }

  lemma LowSix(b: bv8)
    ensures (b & 63) as int == b as int % 64 && (b >> 6) as int == b as int / 64
  {
  }

  /** Unpacking gives every packed scale and minimum back. */
  lemma ScalesBack(sc: seq<int>, mins: seq<int>, j: nat)
    requires CodesIn(sc, 8, 0, 64) && CodesIn(mins, 8, 0, 64) && j < 8
    ensures var (d, m) := ScaleMin(j, PackScales(sc, mins)); d as int == sc[j] && m as int == mins[j]
  {
    if j < 4 {
      SixTwoBack(sc[j], sc[j + 4] / 16);
      SixTwoBack(mins[j], mins[j + 4] / 16);
    } else {
      LateScale(sc[j - 4], sc[j], mins[j - 4], mins[j]);
    }
  }

  lemma LateScale(sc: nat, sc': nat, mins: nat, mins': nat)
    requires sc < 64 && sc' < 64 && mins < 64 && mins' < 64
    ensures var b, s, m := Nibbles(sc' % 16, mins' % 16), SixTwo(sc, sc' / 16), SixTwo(mins, mins' / 16);
            ((b & 0x0F) | ((s >> 6) << 4)) as int == sc' && ((b >> 4) | ((m >> 6) << 4)) as int == mins'
  {
    var b, s, m := Nibbles(sc' % 16, mins' % 16), SixTwo(sc, sc' / 16), SixTwo(mins, mins' / 16);
    NibblesBack(sc' % 16, mins' % 16);
    SixTwoBack(sc, sc' / 16);
    SixTwoBack(mins, mins' / 16);
    JoinSix(b & 0x0F, s >> 6);
    JoinSix(b >> 4, m >> 6);
  }

  /** The block that holds 256 codes, two sub-blocks of 32 sharing their bytes. */
  function Pack(codes: seq<int>, sc: seq<int>, mins: seq<int>, d: real, dmin: real): (q: Block)
    requires CodesIn(codes, 256, 0, 16) && CodesIn(sc, 8, 0, 64) && CodesIn(mins, 8, 0, 64)
    ensures Valid(q)
  {
    Block(d, dmin, PackScales(sc, mins),
          seq(128, i requires 0 <= i < 128 => Nibbles(codes[i / 32 * 64 + i % 32], codes[i / 32 * 64 + 32 + i % 32])))
  }

  lemma NibbleBack(codes: seq<int>, sc: seq<int>, mins: seq<int>, d: real, dmin: real, k: nat, l: nat)
    requires CodesIn(codes, 256, 0, 16) && CodesIn(sc, 8, 0, 64) && CodesIn(mins, 8, 0, 64) && k < 8 && l < 32
    ensures Nibble(Pack(codes, sc, mins, d, dmin), k, l) == codes[32 * k + l]
  {
    var h := k / 2;
    DivUnique(h * 32 + l, 32, h, l);
    NibblesBack(codes[h * 64 + l], codes[h * 64 + 32 + l]);
  }

  lemma WeightOf(q: Block, k: nat, l: nat, s: int, m: int, c: int)
    requires Valid(q) && k < 8 && l < 32 && Nibble(q, k, l) == c
    requires ScaleMin(k, q.scales).0 as int == s && ScaleMin(k, q.scales).1 as int == m
    ensures Weight(q, k, l) == Mul(Mul(q.d, s as real), c as real) - Mul(q.dmin, m as real)
  {
  }

  /** Decoding gives every packed code back, times its sub-block's scale and less its minimum. */
  lemma PackedBack(codes: seq<int>, sc: seq<int>, mins: seq<int>, d: real, dmin: real, k: nat, l: nat)
    requires CodesIn(codes, 256, 0, 16) && CodesIn(sc, 8, 0, 64) && CodesIn(mins, 8, 0, 64) && k < 8 && l < 32
    ensures Values(Pack(codes, sc, mins, d, dmin))[32 * k + l] ==
            Mul(Mul(d, sc[k] as real), codes[32 * k + l] as real) - Mul(dmin, mins[k] as real)
  {
    var q := Pack(codes, sc, mins, d, dmin);
    ValueAt(q, k, l, 32 * k + l);
    ScalesBack(sc, mins, k);
    NibbleBack(codes, sc, mins, d, dmin, k, l);
    WeightOf(q, k, l, sc[k], mins[k], codes[32 * k + l]);
  }

  // ----- decoding -----

  /** deq_q4_k on one block: for each 32 bytes, the low halves, then the high halves. */
  method Dequantize(q: Block) returns (y: seq<real>)
    requires Valid(q)
    ensures y == Values(q)
  {
    y := [];
    for j := 0 to 4
      invariant |y| == 64 * j && y == Values(q)[..|y|]
    {
      y := Half(q, 2 * j, y);
      y := Half(q, 2 * j + 1, y);
    }
  }

  /** One of the two inner loops. */
  method Half(q: Block, k: nat, done: seq<real>) returns (y: seq<real>)
    requires Valid(q) && k < 8 && |done| == 32 * k && done == Values(q)[..|done|]
    ensures |y| == 32 * k + 32 && y == Values(q)[..|y|]
  {
    y := done;
    var (sc, m) := ScaleMin(k, q.scales);
    var d1, m1 := Mul(q.d, sc as int as real), Mul(q.dmin, m as int as real);
    for l := 0 to 32
      invariant |y| == 32 * k + l && y == Values(q)[..|y|]
    {
      ValueAt(q, k, l, |y|);
      y := y + [Mul(d1, Nibble(q, k, l) as real) - m1];
    }
  }

  // ----- whole rows -----

  predicate ValidRow(row: seq<Block>) {
    forall b :: 0 <= b < |row| ==> Valid(row[b])
  }

  function Blocks(row: seq<Block>): (vs: seq<seq<real>>)
    requires ValidRow(row)
    ensures |vs| == |row| && AllOfLength(vs, 256) && forall b :: 0 <= b < |row| ==> vs[b] == Values(row[b])
  {
    seq(|row|, b requires 0 <= b < |row| => Values(row[b]))
  }

  /** deq_q4_k over a row. */
  method DequantizeRow(row: seq<Block>) returns (y: seq<real>)
    requires ValidRow(row)
    ensures y == RowOf(Blocks(row))
  {
    y := [];
    for b := 0 to |row|
      invariant y == RowOf(Blocks(row)[..b])
    {
      var out := Dequantize(row[b]);
      assert Blocks(row)[..b + 1][..b] == Blocks(row)[..b];
      y := y + out;
    }
    assert Blocks(row)[..|row|] == Blocks(row);
  }

  // ----- the kernel's terms -----

  /** A weight as the kernel forms it. */
  function WeightTerm(q: Block, k: nat, l: nat): Term
    requires Valid(q) && k < 8 && l < 32
  {
    Minus(Times(Times(Num(q.d), Num(Scale(k, q.scales) as int as real)), Num(Nibble(q, k, l) as real)),
          Times(Num(q.dmin), Num(Low(k, q.scales) as int as real)))
  }

  /** The accumulator after l bytes of group j, whose two sub-blocks are interleaved. */
  function GroupTerm(q: Block, x: seq<real>, j: nat, acc: Term, l: nat): Term
    requires Valid(q) && |x| == 256 && j < 4 && l <= 32
  {
    if l == 0 then acc
    else Plus(Plus(GroupTerm(q, x, j, acc, l - 1), Times(WeightTerm(q, 2 * j, l - 1), Num(x[64 * j + (l - 1)]))),
              Times(WeightTerm(q, 2 * j + 1, l - 1), Num(x[64 * j + 32 + (l - 1)])))
  }

  function BlockTerm(q: Block, x: seq<real>, acc: Term, j: nat): Term
    requires Valid(q) && |x| == 256 && j <= 4
  {
    if j == 0 then acc else GroupTerm(q, x, j - 1, BlockTerm(q, x, acc, j - 1), 32)
  }

  /** The accumulator after b blocks of a row. */
  function RowTerm(row: seq<Block>, x: seq<real>, b: nat): Term
    requires ValidRow(row) && |x| == |row| * 256 && b <= |row|
  {
    if b == 0 then Num(0.0) else BlockTerm(row[b - 1], x[(b - 1) * 256..(b - 1) * 256 + 256], RowTerm(row, x, b - 1), 4)
  }

  lemma WeightTermIsWeight(q: Block, k: nat, l: nat)
    requires Valid(q) && k < 8 && l < 32
    ensures Eval(WeightTerm(q, k, l)) == Weight(q, k, l)
  {
    SameScales(k, q.scales);
    var scaled := Times(Num(q.d), Num(Scale(k, q.scales) as int as real));
    Product(q.d, Num(Scale(k, q.scales) as int as real), Scale(k, q.scales) as int as real);
    assert Eval(Times(scaled, Num(Nibble(q, k, l) as real))) == Mul(Eval(scaled), Nibble(q, k, l) as real);
    Product(q.dmin, Num(Low(k, q.scales) as int as real), Low(k, q.scales) as int as real);
  }

  lemma TermAt(q: Block, x: seq<real>, k: nat, l: nat, i: nat)
    requires Valid(q) && |x| == 256 && k < 8 && l < 32 && i == 32 * k + l
    ensures Eval(Times(WeightTerm(q, k, l), Num(x[i]))) == Mul(Values(q)[i], x[i])
  {
    WeightTermIsWeight(q, k, l);
    ValueAt(q, k, l, i);
    assert Eval(Num(x[i])) == x[i];
  }

  lemma {:induction false} GroupTermIsSpans(q: Block, x: seq<real>, j: nat, acc: Term, l: nat)
    requires Valid(q) && |x| == 256 && j < 4 && l <= 32
    ensures Eval(GroupTerm(q, x, j, acc, l)) ==
            Eval(acc) + Span(Values(q), x, 64 * j, 64 * j + l) + Span(Values(q), x, 64 * j + 32, 64 * j + 32 + l)
    decreases |x|, l
  {
    if l > 0 {
      GroupTermIsSpans(q, x, j, acc, l - 1);
      TermAt(q, x, 2 * j, l - 1, 64 * j + (l - 1));
      TermAt(q, x, 2 * j + 1, l - 1, 64 * j + 32 + (l - 1));
    }
  }

  lemma {:induction false} BlockTermIsSpan(q: Block, x: seq<real>, acc: Term, j: nat)
    requires Valid(q) && |x| == 256 && j <= 4
    ensures Eval(BlockTerm(q, x, acc, j)) == Eval(acc) + Span(Values(q), x, 0, 64 * j)
    decreases |x|, j
  {
    if j > 0 {
      BlockTermIsSpan(q, x, acc, j - 1);
      GroupTermIsSpans(q, x, j - 1, BlockTerm(q, x, acc, j - 1), 32);
      SpanSplit(Values(q), x, 64 * (j - 1), 64 * (j - 1) + 32, 64 * j);
      SpanSplit(Values(q), x, 0, 64 * (j - 1), 64 * j);
    }
  }

  lemma BlockTermIsDot(q: Block, x: seq<real>, acc: Term)
    requires Valid(q) && |x| == 256
    ensures Eval(BlockTerm(q, x, acc, 4)) == Eval(acc) + Dot(Values(q), x)
  {
    BlockTermIsSpan(q, x, acc, 4);
  }

  /** Over the reals the kernel's tree is the dot product of the dequantized row with x. */
  lemma {:induction false} RowTermIsProduct(row: seq<Block>, x: seq<real>, b: nat)
    requires ValidRow(row) && |x| == |row| * 256 && b <= |row|
    ensures Eval(RowTerm(row, x, b)) == RowSofar(Blocks(row), 256, x, b)
    decreases |x|, b
  {
    RowEnds(Blocks(row), 256, x);
    if b > 0 {
      RowTermIsProduct(row, x, b - 1);
      ValueStep(Blocks(row), 256, x, b - 1, (b - 1) * 256);
      var before, xb := RowTerm(row, x, b - 1), x[(b - 1) * 256..(b - 1) * 256 + 256];
      BlockTermIsDot(row[b - 1], xb, before);
      assert RowTerm(row, x, b) == BlockTerm(row[b - 1], xb, before, 4);
    }
  }

  lemma KernelIsDequantizeThenDot(row: seq<Block>, x: seq<real>)
    requires ValidRow(row) && |x| == |row| * 256
    ensures Eval(RowTerm(row, x, |row|)) == RowProduct(Blocks(row), 256, x)
  {
    RowTermIsProduct(row, x, |row|);
    RowEnds(Blocks(row), 256, x);
  }

  /** One pass over a pair of rows, their chains interleaved. */
  method TwoRows(row0: seq<Block>, row1: seq<Block>, x: seq<real>) returns (acc0: Term, acc1: Term)
    requires ValidRow(row0) && ValidRow(row1) && |x| == |row0| * 256 && |row1| == |row0|
    ensures acc0 == RowTerm(row0, x, |row0|) && acc1 == RowTerm(row1, x, |row1|)
  {
    acc0, acc1 := Num(0.0), Num(0.0);
    for b := 0 to |row0|
      invariant acc0 == RowTerm(row0, x, b) && acc1 == RowTerm(row1, x, b)
    {
      acc0, acc1 := TwoBlocks(row0[b], row1[b], x[b * 256..b * 256 + 256], acc0, acc1);
    }
  }

  method TwoBlocks(q0: Block, q1: Block, x: seq<real>, t0: Term, t1: Term) returns (acc0: Term, acc1: Term)
    requires Valid(q0) && Valid(q1) && |x| == 256
    ensures acc0 == BlockTerm(q0, x, t0, 4) && acc1 == BlockTerm(q1, x, t1, 4)
  {
    acc0, acc1 := t0, t1;
    for j := 0 to 4
      invariant acc0 == BlockTerm(q0, x, t0, j) && acc1 == BlockTerm(q1, x, t1, j)
    {
      acc0, acc1 := TwoGroups(q0, q1, x, j, acc0, acc1);
    }
  }

  /** The innermost loop of the pair. */
  method TwoGroups(q0: Block, q1: Block, x: seq<real>, j: nat, t0: Term, t1: Term) returns (acc0: Term, acc1: Term)
    requires Valid(q0) && Valid(q1) && |x| == 256 && j < 4
    ensures acc0 == GroupTerm(q0, x, j, t0, 32) && acc1 == GroupTerm(q1, x, j, t1, 32)
  {
    acc0, acc1 := t0, t1;
    for l := 0 to 32
      invariant acc0 == GroupTerm(q0, x, j, t0, l) && acc1 == GroupTerm(q1, x, j, t1, l)
    {
      var xl, xh := Num(x[64 * j + l]), Num(x[64 * j + 32 + l]);
      acc0 := Plus(acc0, Times(WeightTerm(q0, 2 * j, l), xl));
      acc0 := Plus(acc0, Times(WeightTerm(q0, 2 * j + 1, l), xh));
      acc1 := Plus(acc1, Times(WeightTerm(q1, 2 * j, l), xl));
      acc1 := Plus(acc1, Times(WeightTerm(q1, 2 * j + 1, l), xh));
    }
  }

  /** A last row on its own. */
  method OneRow(row: seq<Block>, x: seq<real>) returns (acc: Term)
    requires ValidRow(row) && |x| == |row| * 256
    ensures acc == RowTerm(row, x, |row|)
  {
    acc := Num(0.0);
    for b := 0 to |row|
      invariant acc == RowTerm(row, x, b)
    {
      acc := OneBlock(row[b], x[b * 256..b * 256 + 256], acc);
    }
  }

  method OneBlock(q: Block, x: seq<real>, t: Term) returns (acc: Term)
    requires Valid(q) && |x| == 256
    ensures acc == BlockTerm(q, x, t, 4)
  {
    acc := t;
    for j := 0 to 4
      invariant acc == BlockTerm(q, x, t, j)
    {
      acc := OneGroup(q, x, j, acc);
    }
  }

  method OneGroup(q: Block, x: seq<real>, j: nat, t: Term) returns (acc: Term)
    requires Valid(q) && |x| == 256 && j < 4
    ensures acc == GroupTerm(q, x, j, t, 32)
  {
    acc := t;
    for l := 0 to 32
      invariant acc == GroupTerm(q, x, j, t, l)
    {
      acc := Plus(acc, Times(WeightTerm(q, 2 * j, l), Num(x[64 * j + l])));
      acc := Plus(acc, Times(WeightTerm(q, 2 * j + 1, l), Num(x[64 * j + 32 + l])));
    }
  }

  ghost predicate ValidRows(w: seq<seq<Block>>, x: seq<real>) {
    forall r :: 0 <= r < |w| ==> ValidRow(w[r]) && |x| == |w[r]| * 256
  }

  /** The result of every row. */
  ghost function Results(w: seq<seq<Block>>, x: seq<real>): (f: seq<Term>)
    requires ValidRows(w, x)
    ensures |f| == |w|
  {
    seq(|w|, r requires 0 <= r < |w| => RowTerm(w[r], x, |w[r]|))
  }

  lemma ResultAt(w: seq<seq<Block>>, x: seq<real>, r: nat)
    requires ValidRows(w, x) && r < |w|
    ensures Results(w, x)[r] == RowTerm(w[r], x, |w[r]|)
  {
  }

  /** A pair of rows, stored one after the other. */
  method PairStep(w: seq<seq<Block>>, x: seq<real>, y: array<Term>, ghost before: seq<Term>, ghost f: seq<Term>,
                  ghost r0: nat, r: nat, ghost log: seq<Put<Term>>) returns (r': nat, ghost log': seq<Put<Term>>)
    requires ValidRows(w, x) && f == Results(w, x) && Logged(log, y[..], before, f, r0, r) && r + 1 < |w|
    modifies y
    ensures r' == r + 2 && Logged(log', y[..], before, f, r0, r')
  {
    var acc0, acc1 := TwoRows(w[r], w[r + 1], x);
    ResultAt(w, x, r);
    ResultAt(w, x, r + 1);
    log' := StoreNext(y, before, f, r0, r, acc0, log);
    r' := r + 1;
    log' := StoreNext(y, before, f, r0, r', acc1, log');
    r' := r' + 1;
  }

  method TailStep(w: seq<seq<Block>>, x: seq<real>, y: array<Term>, ghost before: seq<Term>, ghost f: seq<Term>,
                  ghost r0: nat, r: nat, ghost log: seq<Put<Term>>) returns (r': nat, ghost log': seq<Put<Term>>)
    requires ValidRows(w, x) && f == Results(w, x) && Logged(log, y[..], before, f, r0, r) && r < |w|
    modifies y
    ensures r' == r + 1 && Logged(log', y[..], before, f, r0, r')
  {
    var acc := OneRow(w[r], x);
    ResultAt(w, x, r);
    log' := StoreNext(y, before, f, r0, r, acc, log);
    r' := r + 1;
  }

  /** rows_q4_k: pairs of rows and a tail. Whether a row falls in a pair or in the tail, its tree is the same; log is
      the stores in the order they are made. */
  method Rows(w: seq<seq<Block>>, x: seq<real>, y: array<Term>, r0: nat, r1: nat) returns (ghost log: seq<Put<Term>>)
    requires r0 <= r1 <= |w| <= y.Length && ValidRows(w, x)
    modifies y
    ensures Logged(log, y[..], old(y[..]), Results(w, x), r0, r1)
  {
    ghost var before, f := y[..], Results(w, x);
    log := [];
    var r := r0;
    while r + 1 < r1
      invariant r <= r1 && Logged(log, y[..], before, f, r0, r)
    {
      r, log := PairStep(w, x, y, before, f, r0, r, log);
    }
    while r < r1
      invariant r <= r1 && Logged(log, y[..], before, f, r0, r)
    {
      r, log := TailStep(w, x, y, before, f, r0, r, log);
    }
  }
}
