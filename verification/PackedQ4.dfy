/** The 4-bit block Q4_0: its decoder in src/quant.c and its two-rows-at-a-time kernel in src/cpu_ops.c. */
module PackedQ4 {
  import opened PackedBits
  import opened Spans
  import opened Terms

  datatype Block = Block(qs: seq<bv8>, d: real)

  predicate Valid(q: Block) {
    |q.qs| == 16
  }

  function Low(b: bv8): int {
    (b & 0x0F) as int - 8
  }

  function High(b: bv8): int {
    (b >> 4) as int - 8
  }

  /** Weight i without its scale: sixteen low nibbles, then sixteen high ones. */
  function Code(q: Block, i: nat): real
    requires Valid(q) && i < 32
  {
    if i < 16 then Low(q.qs[i]) as real else High(q.qs[i - 16]) as real
  }

  function Codes(q: Block): (c: seq<real>)
    requires Valid(q)
    ensures |c| == 32 && forall i :: 0 <= i < 32 ==> c[i] == Code(q, i)
  {
    seq(32, i requires 0 <= i < 32 => Code(q, i))
  }

  function Values(q: Block): (v: seq<real>)
    requires Valid(q)
    ensures |v| == 32 && forall i :: 0 <= i < 32 ==> v[i] == Mul(Code(q, i), q.d)
  {
    seq(32, i requires 0 <= i < 32 => Mul(Code(q, i), q.d))
  }

  /** The block that holds 32 codes: code j and code j + 16 share a byte, each 8 up. */
  function Pack(codes: seq<int>, d: real): Block
    requires CodesIn(codes, 32, -8, 8)
  {
    Block(seq(16, j requires 0 <= j < 16 => Nibbles(codes[j] + 8, codes[j + 16] + 8)), d)
  }

  lemma NibblesHeld(lo: int, hi: int)
    requires -8 <= lo < 8 && -8 <= hi < 8
    ensures Low(Nibbles(lo + 8, hi + 8)) == lo && High(Nibbles(lo + 8, hi + 8)) == hi
  {
    NibblesBack(lo + 8, hi + 8);
  }

  lemma CodeBack(codes: seq<int>, d: real, i: nat)
    requires CodesIn(codes, 32, -8, 8) && i < 32
    ensures Code(Pack(codes, d), i) == codes[i] as real
  {
    var j := if i < 16 then i else i - 16;
    NibblesHeld(codes[j], codes[j + 16]);
  }

  /** Decoding gives every packed code back, times the scale. */
  lemma PackedBack(codes: seq<int>, d: real, i: nat)
    requires CodesIn(codes, 32, -8, 8) && i < 32
    ensures Valid(Pack(codes, d)) && Values(Pack(codes, d))[i] == codes[i] as real * d
  {
    CodeBack(codes, d, i);
  }

  ghost predicate Stripe(y: seq<real>, v: seq<real>, i: nat) {
    i + 16 < |y| == |v| && y[i] == v[i] && y[i + 16] == v[i + 16]
  }

  /** deq_q4_0 on one block: two stores, 16 apart, for each byte. */
  method Dequantize(q: Block) returns (y: seq<real>)
    requires Valid(q)
    ensures y == Values(q)
  {
    y := seq(32, _ => 0.0);
    ghost var v := Values(q);
    for j := 0 to 16
      invariant |y| == 32 && forall i :: 0 <= i < j ==> Stripe(y, v, i)
    {
      ghost var was := y;
      y := y[j := Mul(Low(q.qs[j]) as real, q.d)][16 + j := Mul(High(q.qs[j]) as real, q.d)];
      forall i | 0 <= i < j + 1 ensures Stripe(y, v, i) {
        assert i < j ==> Stripe(was, v, i);
      }
    }
    forall i | 0 <= i < 32 ensures y[i] == v[i] {
      assert Stripe(y, v, if i < 16 then i else i - 16);
    }
  }

  // ----- whole rows -----

  predicate ValidRow(row: seq<Block>) {
    forall b :: 0 <= b < |row| ==> Valid(row[b])
  }

  function Blocks(row: seq<Block>): (vs: seq<seq<real>>)
    requires ValidRow(row)
    ensures |vs| == |row| && AllOfLength(vs, 32) && forall b :: 0 <= b < |row| ==> vs[b] == Values(row[b])
  {
    seq(|row|, b requires 0 <= b < |row| => Values(row[b]))
  }

  /** deq_q4_0 over a row. */
  method DequantizeRow(row: seq<Block>) returns (y: seq<real>)
    requires ValidRow(row)
    ensures y == RowOf(Blocks(row))
  {
    y := [];
    for b := 0 to |row|
      invariant y == RowOf(Blocks(row)[..b])
    {
      var out := Dequantize(row[b]);
      assert Blocks(row)[..b + 1][..b] == Blocks(row)[..b];
      y := y + out;
    }
    assert Blocks(row)[..|row|] == Blocks(row);
  }

  // ----- the kernel's terms -----

  /** What byte j adds to a block's sum. */
  function ByteTerm(q: Block, x: seq<real>, j: nat): Term
    requires Valid(q) && |x| == 32 && j < 16
  {
    Plus(Times(Num(Low(q.qs[j]) as real), Num(x[j])), Times(Num(High(q.qs[j]) as real), Num(x[16 + j])))
  }

  /** The sum after j bytes of a block. */
  function BlockTerm(q: Block, x: seq<real>, j: nat): Term
    requires Valid(q) && |x| == 32 && j <= 16
  {
    if j == 0 then Num(0.0) else Plus(BlockTerm(q, x, j - 1), ByteTerm(q, x, j - 1))
  }

  /** The accumulator after b blocks of a row. */
  function RowTerm(row: seq<Block>, x: seq<real>, b: nat): Term
    requires ValidRow(row) && |x| == |row| * 32 && b <= |row|
  {
    if b == 0 then Num(0.0)
    else Plus(RowTerm(row, x, b - 1),
              Times(Num(row[b - 1].d), BlockTerm(row[b - 1], x[(b - 1) * 32..(b - 1) * 32 + 32], 16)))
  }

  lemma {:induction false} BlockTermIsDot(q: Block, x: seq<real>, j: nat)
    requires Valid(q) && |x| == 32 && j <= 16
    ensures Eval(BlockTerm(q, x, j)) == Span(Codes(q), x, 0, j) + Span(Codes(q), x, 16, 16 + j)
    decreases |x|, j
  {
    if j > 0 {
      BlockTermIsDot(q, x, j - 1);
      ByteTermIsTerms(q, x, j - 1);
    }
  }

  lemma ByteTermIsTerms(q: Block, x: seq<real>, j: nat)
    requires Valid(q) && |x| == 32 && j < 16
    ensures Eval(ByteTerm(q, x, j)) == Mul(Codes(q)[j], x[j]) + Mul(Codes(q)[16 + j], x[16 + j])
  {
    Product(Low(q.qs[j]) as real, Num(x[j]), x[j]);
    Product(High(q.qs[j]) as real, Num(x[16 + j]), x[16 + j]);
  }

  /** A block's sum, scaled once at its end, is the dot product of its weights with x. */
  lemma BlockIsDot(q: Block, x: seq<real>)
    requires Valid(q) && |x| == 32
    ensures Mul(q.d, Eval(BlockTerm(q, x, 16))) == Dot(Values(q), x)
  {
    BlockTermIsDot(q, x, 16);
    SpanSplit(Codes(q), x, 0, 16, 32);
    SpanScale(Values(q), Codes(q), x, q.d, 0, 32);
  }

  /** Over the reals the kernel's tree is the dot product of the dequantized row with x. */
  lemma {:induction false} RowTermIsProduct(row: seq<Block>, x: seq<real>, b: nat)
    requires ValidRow(row) && |x| == |row| * 32 && b <= |row|
    ensures Eval(RowTerm(row, x, b)) == RowSofar(Blocks(row), 32, x, b)
    decreases |x|, b
  {
    RowEnds(Blocks(row), 32, x);
    if b > 0 {
      RowTermIsProduct(row, x, b - 1);
      var xb := x[(b - 1) * 32..(b - 1) * 32 + 32];
      ValueStep(Blocks(row), 32, x, b - 1, (b - 1) * 32);
      BlockIsDot(row[b - 1], xb);
      Unfold(row, x, b);
    }
  }

  lemma Unfold(row: seq<Block>, x: seq<real>, b: nat)
    requires ValidRow(row) && |x| == |row| * 32 && 0 < b <= |row|
    ensures Eval(RowTerm(row, x, b)) == Eval(RowTerm(row, x, b - 1)) +
            Mul(row[b - 1].d, Eval(BlockTerm(row[b - 1], x[(b - 1) * 32..(b - 1) * 32 + 32], 16)))
  {
    var block := BlockTerm(row[b - 1], x[(b - 1) * 32..(b - 1) * 32 + 32], 16);
    Product(row[b - 1].d, block, Eval(block));
  }

  /** The reference: dequantize the whole row, then take its dot product with x. */
  lemma KernelIsDequantizeThenDot(row: seq<Block>, x: seq<real>)
    requires ValidRow(row) && |x| == |row| * 32
    ensures Eval(RowTerm(row, x, |row|)) == RowProduct(Blocks(row), 32, x)
  {
    RowTermIsProduct(row, x, |row|);
    RowEnds(Blocks(row), 32, x);
  }

  /** One pass over a pair of rows, their chains interleaved. */
  method TwoRows(row0: seq<Block>, row1: seq<Block>, x: seq<real>) returns (acc0: Term, acc1: Term)
    requires ValidRow(row0) && ValidRow(row1) && |x| == |row0| * 32 && |row1| == |row0|
    ensures acc0 == RowTerm(row0, x, |row0|) && acc1 == RowTerm(row1, x, |row1|)
  {
    acc0, acc1 := Num(0.0), Num(0.0);
    for b := 0 to |row0|
      invariant acc0 == RowTerm(row0, x, b) && acc1 == RowTerm(row1, x, b)
    {
      var q0, q1, xb := row0[b], row1[b], x[b * 32..b * 32 + 32];
      var s0, s1 := Num(0.0), Num(0.0);
      for j := 0 to 16
        invariant s0 == BlockTerm(q0, xb, j) && s1 == BlockTerm(q1, xb, j)
      {
        var xl, xh := Num(xb[j]), Num(xb[16 + j]);
        s0 := Plus(s0, Plus(Times(Num(Low(q0.qs[j]) as real), xl), Times(Num(High(q0.qs[j]) as real), xh)));
        s1 := Plus(s1, Plus(Times(Num(Low(q1.qs[j]) as real), xl), Times(Num(High(q1.qs[j]) as real), xh)));
      }
      acc0 := Plus(acc0, Times(Num(q0.d), s0));
      acc1 := Plus(acc1, Times(Num(q1.d), s1));
    }
  }

  /** A last row on its own. */
  method OneRow(row: seq<Block>, x: seq<real>) returns (acc: Term)
    requires ValidRow(row) && |x| == |row| * 32
    ensures acc == RowTerm(row, x, |row|)
  {
    acc := Num(0.0);
    for b := 0 to |row|
      invariant acc == RowTerm(row, x, b)
    {
      var q, xb := row[b], x[b * 32..b * 32 + 32];
      var sum := Num(0.0);
      for j := 0 to 16
        invariant sum == BlockTerm(q, xb, j)
      {
        var lo, hi := Low(q.qs[j]), High(q.qs[j]);
        sum := Plus(sum, Plus(Times(Num(lo as real), Num(xb[j])), Times(Num(hi as real), Num(xb[16 + j]))));
      }
      acc := Plus(acc, Times(Num(q.d), sum));
    }
  }

  ghost predicate ValidRows(w: seq<seq<Block>>, x: seq<real>) {
    forall r :: 0 <= r < |w| ==> ValidRow(w[r]) && |x| == |w[r]| * 32
  }

  /** The result of every row. */
  ghost function Results(w: seq<seq<Block>>, x: seq<real>): (f: seq<Term>)
    requires ValidRows(w, x)
    ensures |f| == |w|
  {
    seq(|w|, r requires 0 <= r < |w| => RowTerm(w[r], x, |w[r]|))
  }

  lemma ResultAt(w: seq<seq<Block>>, x: seq<real>, r: nat)
    requires ValidRows(w, x) && r < |w|
    ensures Results(w, x)[r] == RowTerm(w[r], x, |w[r]|)
  {
  }

  /** A pair of rows, stored one after the other. */
  method PairStep(w: seq<seq<Block>>, x: seq<real>, y: array<Term>, ghost before: seq<Term>, ghost f: seq<Term>,
                  ghost r0: nat, r: nat, ghost log: seq<Put<Term>>) returns (r': nat, ghost log': seq<Put<Term>>)
    requires ValidRows(w, x) && f == Results(w, x) && Logged(log, y[..], before, f, r0, r) && r + 1 < |w|
    modifies y
    ensures r' == r + 2 && Logged(log', y[..], before, f, r0, r')
  {
    var acc0, acc1 := TwoRows(w[r], w[r + 1], x);
    ResultAt(w, x, r);
    ResultAt(w, x, r + 1);
    log' := StoreNext(y, before, f, r0, r, acc0, log);
    r' := r + 1;
    log' := StoreNext(y, before, f, r0, r', acc1, log');
    r' := r' + 1;
  }

  method TailStep(w: seq<seq<Block>>, x: seq<real>, y: array<Term>, ghost before: seq<Term>, ghost f: seq<Term>,
                  ghost r0: nat, r: nat, ghost log: seq<Put<Term>>) returns (r': nat, ghost log': seq<Put<Term>>)
    requires ValidRows(w, x) && f == Results(w, x) && Logged(log, y[..], before, f, r0, r) && r < |w|
    modifies y
    ensures r' == r + 1 && Logged(log', y[..], before, f, r0, r')
  {
    var acc := OneRow(w[r], x);
    ResultAt(w, x, r);
    log' := StoreNext(y, before, f, r0, r, acc, log);
    r' := r + 1;
  }

  /** rows_q4_0: pairs of rows and a tail. Whether a row falls in a pair or in the tail, its tree is the same; log is
      the stores in the order they are made. */
  method Rows(w: seq<seq<Block>>, x: seq<real>, y: array<Term>, r0: nat, r1: nat) returns (ghost log: seq<Put<Term>>)
    requires r0 <= r1 <= |w| <= y.Length && ValidRows(w, x)
    modifies y
    ensures Logged(log, y[..], old(y[..]), Results(w, x), r0, r1)
  {
    ghost var before, f := y[..], Results(w, x);
    log := [];
    var r := r0;
    while r + 1 < r1
      invariant r <= r1 && Logged(log, y[..], before, f, r0, r)
    {
      r, log := PairStep(w, x, y, before, f, r0, r, log);
    }
    while r < r1
      invariant r <= r1 && Logged(log, y[..], before, f, r0, r)
    {
      r, log := TailStep(w, x, y, before, f, r0, r, log);
    }
  }
}
