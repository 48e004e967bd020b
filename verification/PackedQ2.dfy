/** The 2-bit block Q2_0: its decoder in src/quant.c and its fused kernel in src/cpu_ops.c. */
module PackedQ2 {
  import opened PackedBits
  import opened Division
  import opened Spans

  datatype Block = Block(qs: seq<bv8>, d: real)

  predicate Valid(q: Block) {
    |q.qs| == 16
  }

  /** Weight i without its scale: four bit pairs a byte, lowest first. */
  function Code(q: Block, i: nat): real
    requires Valid(q) && i < 64
  {
    (Two(q.qs[i / 4], i % 4) - 1) as real
  }

  function Codes(q: Block): (c: seq<real>)
    requires Valid(q)
    ensures |c| == 64 && forall i :: 0 <= i < 64 ==> c[i] == Code(q, i)
  {
    seq(64, i requires 0 <= i < 64 => Code(q, i))
  }

  function Values(q: Block): (v: seq<real>)
    requires Valid(q)
    ensures |v| == 64 && forall i :: 0 <= i < 64 ==> v[i] == Mul(Code(q, i), q.d)
  {
    seq(64, i requires 0 <= i < 64 => Mul(Code(q, i), q.d))
  }

  /** The block that holds 64 codes: four in a byte, lowest first, each 1 up. */
  function Pack(codes: seq<int>, d: real): Block
    requires CodesIn(codes, 64, -1, 3)
  {
    Block(seq(16, j requires 0 <= j < 16 => Byte(Pairs(Quads(codes, j)))), d)
  }

  function Quads(codes: seq<int>, j: nat): (s: seq<Digit4>)
    requires CodesIn(codes, 64, -1, 3) && j < 16
    ensures |s| == 4
  {
    [codes[4 * j] + 1, codes[4 * j + 1] + 1, codes[4 * j + 2] + 1, codes[4 * j + 3] + 1]
  }

  lemma CodeBack(codes: seq<int>, d: real, i: nat)
    requires CodesIn(codes, 64, -1, 3) && i < 64
    ensures Code(Pack(codes, d), i) == codes[i] as real
  {
    var s := Quads(codes, i / 4);
    PairsHeld(s, i % 4);
    assert s[i % 4] == codes[i] + 1;
  }

  /** Decoding gives every packed code back, times the scale. */
  lemma PackedBack(codes: seq<int>, d: real, i: nat)
    requires CodesIn(codes, 64, -1, 3) && i < 64
    ensures Valid(Pack(codes, d)) && Values(Pack(codes, d))[i] == codes[i] as real * d
  {
    CodeBack(codes, d, i);
  }

  /** deq_q2_0 on one block. */
  method Dequantize(q: Block) returns (y: seq<real>)
    requires Valid(q)
    ensures y == Values(q)
  {
    y := [];
    for j := 0 to 64
      invariant |y| == j && y == Values(q)[..j]
    {
      var v := Two(q.qs[j / 4], j % 4);
      y := y + [Mul((v - 1) as real, q.d)];
    }
  }

  /** The sum of the first i terms. */
  ghost predicate Summed(q: Block, x: seq<real>, i: nat, s: real)
    requires Valid(q)
  {
    Partial(Codes(q), x, 0.0, s, 0, i)
  }

  /** One of the four multiply-adds a byte feeds. */
  lemma PairStep(q: Block, x: seq<real>, j: nat, l: nat, i: nat, s: real)
    requires Valid(q) && |x| == 64 && j < 16 && l < 4 && i == j * 4 + l && Summed(q, x, i, s)
    ensures Summed(q, x, i + 1, s + Mul(Tern(Two(q.qs[j], l)), x[i]))
  {
    DivUnique(i, 4, j, l);
    TernIsCode(q.qs[j], l);
    PartialStep(Codes(q), x, 0.0, s, 0, i, Tern(Two(q.qs[j], l)));
  }

  /** The four lines of the kernel's inner loop. */
  method ByteSum(q: Block, x: seq<real>, j: nat, i: nat, a: real) returns (s: real)
    requires Valid(q) && |x| == 64 && j < 16 && i == j * 4 && Summed(q, x, i, a)
    ensures Summed(q, x, i + 4, s)
  {
    var b := q.qs[j];
    PairStep(q, x, j, 0, i, a);
    var s1 := a + Mul(Tern(Two(b, 0)), x[i]);
    PairStep(q, x, j, 1, i + 1, s1);
    var s2 := s1 + Mul(Tern(Two(b, 1)), x[i + 1]);
    PairStep(q, x, j, 2, i + 2, s2);
    var s3 := s2 + Mul(Tern(Two(b, 2)), x[i + 2]);
    PairStep(q, x, j, 3, i + 3, s3);
    s := s3 + Mul(Tern(Two(b, 3)), x[i + 3]);
  }

  /** The kernel's work on one block, before the scale. */
  method BlockSum(q: Block, x: seq<real>) returns (s: real)
    requires Valid(q) && |x| == 64
    ensures s == Dot(Codes(q), x)
  {
    s := 0.0;
    for j := 0 to 16
      invariant Summed(q, x, j * 4, s)
    {
      s := ByteSum(q, x, j, j * 4, s);
    }
  }

  // ----- whole rows -----

  predicate ValidRow(row: seq<Block>) {
    forall b :: 0 <= b < |row| ==> Valid(row[b])
  }

  function Blocks(row: seq<Block>): (vs: seq<seq<real>>)
    requires ValidRow(row)
    ensures |vs| == |row| && AllOfLength(vs, 64) && forall b :: 0 <= b < |row| ==> vs[b] == Values(row[b])
  {
    seq(|row|, b requires 0 <= b < |row| => Values(row[b]))
  }

  /** deq_q2_0 over a row. */
  method DequantizeRow(row: seq<Block>) returns (y: seq<real>)
    requires ValidRow(row)
    ensures y == RowOf(Blocks(row))
  {
    y := [];
    for b := 0 to |row|
      invariant y == RowOf(Blocks(row)[..b])
    {
      var out := Dequantize(row[b]);
      assert Blocks(row)[..b + 1][..b] == Blocks(row)[..b];
      y := y + out;
    }
    assert Blocks(row)[..|row|] == Blocks(row);
  }

  /** The kernel on one row equals dequantizing the row and taking its dot product with x. */
  method RowDot(row: seq<Block>, x: seq<real>) returns (acc: real)
    requires ValidRow(row) && |x| == |row| * 64
    ensures acc == RowProduct(Blocks(row), 64, x)
  {
    acc := 0.0;
    ghost var vs := Blocks(row);
    RowEnds(vs, 64, x);
    for b := 0 to |row|
      invariant acc == RowSofar(vs, 64, x, b)
    {
      var s := BlockSum(row[b], x[b * 64..b * 64 + 64]);
      ScaledStep(vs, 64, x, b, b * 64, Codes(row[b]), row[b].d, s);
      acc := acc + Mul(row[b].d, s);
    }
  }

  ghost predicate ValidRows(w: seq<seq<Block>>, x: seq<real>) {
    forall r :: 0 <= r < |w| ==> ValidRow(w[r]) && |x| == |w[r]| * 64
  }

  /** The result of every row. */
  ghost function Results(w: seq<seq<Block>>, x: seq<real>): (f: seq<real>)
    requires ValidRows(w, x)
    ensures |f| == |w| && forall r :: 0 <= r < |w| ==> f[r] == RowProduct(Blocks(w[r]), 64, x)
  {
    seq(|w|, r requires 0 <= r < |w| => RowProduct(Blocks(w[r]), 64, x))
  }

  /** rows_q2_0: rows r0 up to r1 of the product, and no other entry of y. */
  method Rows(w: seq<seq<Block>>, x: seq<real>, y: array<real>, r0: nat, r1: nat)
    requires r0 <= r1 <= |w| <= y.Length && ValidRows(w, x)
    modifies y
    ensures Filled(y[..], old(y[..]), Results(w, x), r0, r1)
  {
    ghost var before, f := y[..], Results(w, x);
    for r := r0 to r1
      invariant Filled(y[..], before, f, r0, r)
    {
      var acc := RowDot(w[r], x);
      Store(y, before, f, r0, r, acc);
    }
  }
}
