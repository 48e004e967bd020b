/** The 2-bit ternary block TQ2_0: its decoder in src/quant.c and its fused kernel in src/cpu_ops.c. */
module PackedTQ2 {
  import opened PackedBits
  import opened Division
  import opened Spans

  datatype Block = Block(qs: seq<bv8>, d: real)

  predicate Valid(q: Block) {
    |q.qs| == 64
  }

  /** Weight i without its scale: four planes of 32 for each 32-byte group. */
  function Code(q: Block, i: nat): real
    requires Valid(q) && i < 256
  {
    (Two(q.qs[i / 128 * 32 + i % 32], i % 128 / 32) - 1) as real
  }

  function Codes(q: Block): (c: seq<real>)
    requires Valid(q)
    ensures |c| == 256 && forall i :: 0 <= i < 256 ==> c[i] == Code(q, i)
  {
    seq(256, i requires 0 <= i < 256 => Code(q, i))
  }

  function Values(q: Block): (v: seq<real>)
    requires Valid(q)
    ensures |v| == 256 && forall i :: 0 <= i < 256 ==> v[i] == Mul(Code(q, i), q.d)
  {
    seq(256, i requires 0 <= i < 256 => Mul(Code(q, i), q.d))
  }

  lemma CodeAt(q: Block, g: nat, l: nat, m: nat)
    requires Valid(q) && g < 2 && l < 4 && m < 32
    ensures Codes(q)[g * 128 + l * 32 + m] == (Two(q.qs[g * 32 + m], l) - 1) as real
  {
    Place(g, l, m, g * 128 + l * 32 + m);
  }

  lemma Place(g: nat, l: nat, m: nat, i: nat)
    requires l < 4 && m < 32 && i == g * 128 + l * 32 + m
    ensures i / 128 == g && i % 128 / 32 == l && i % 32 == m
  {
    DivUnique(i, 128, g, l * 32 + m);
    DivUnique(l * 32 + m, 32, l, m);
    DivUnique(i, 32, 4 * g + l, m);
  }

  /** The block that holds 256 codes: four in a byte, 32 apart, each 1 up. */
  function Pack(codes: seq<int>, d: real): Block
    requires CodesIn(codes, 256, -1, 3)
  {
    Block(seq(64, k requires 0 <= k < 64 => Byte(Pairs(Quads(codes, k / 32 * 128 + k % 32)))), d)
  }

  function Quads(codes: seq<int>, i: nat): (s: seq<Digit4>)
    requires CodesIn(codes, 256, -1, 3) && i + 96 < 256
    ensures |s| == 4
  {
    [codes[i] + 1, codes[i + 32] + 1, codes[i + 64] + 1, codes[i + 96] + 1]
  }

  lemma ByteOf(codes: seq<int>, d: real, g: nat, m: nat)
    requires CodesIn(codes, 256, -1, 3) && g < 2 && m < 32
    ensures Pack(codes, d).qs[g * 32 + m] == Byte(Pairs(Quads(codes, g * 128 + m)))
  {
    DivUnique(g * 32 + m, 32, g, m);
  }

  lemma QuadsAt(codes: seq<int>, i: nat, l: nat)
    requires CodesIn(codes, 256, -1, 3) && i + 96 < 256 && l < 4
    ensures Quads(codes, i)[l] == codes[i + 32 * l] + 1
  {
  }

  lemma CodeBack(codes: seq<int>, d: real, i: nat)
    requires CodesIn(codes, 256, -1, 3) && i < 256
    ensures Code(Pack(codes, d), i) == codes[i] as real
  {
    var g, l, m := i / 128, i % 128 / 32, i % 32;
    assert i == g * 128 + l * 32 + m;
    ByteOf(codes, d, g, m);
    QuadsAt(codes, g * 128 + m, l);
    PairsHeld(Quads(codes, g * 128 + m), l);
  }

  /** Decoding gives every packed code back, times the scale. */
  lemma PackedBack(codes: seq<int>, d: real, i: nat)
    requires CodesIn(codes, 256, -1, 3) && i < 256
    ensures Valid(Pack(codes, d)) && Values(Pack(codes, d))[i] == codes[i] as real * d
  {
    CodeBack(codes, d, i);
  }

  /** deq_tq2_0 on one block: the weights appended in output order. */
  method Dequantize(q: Block) returns (y: seq<real>)
    requires Valid(q)
    ensures y == Values(q)
  {
    y := [];
    var d := q.d;
    for g := 0 to 2
      invariant |y| == 128 * g && y == Values(q)[..|y|]
    {
      for l := 0 to 4
        invariant |y| == 128 * g + 32 * l && y == Values(q)[..|y|]
      {
        for m := 0 to 32
          invariant |y| == 128 * g + 32 * l + m && y == Values(q)[..|y|]
        {
          CodeAt(q, g, l, m);
          y := y + [Mul((Two(q.qs[g * 32 + m], l) - 1) as real, d)];
        }
      }
    }
  }

  /** The four accumulators after m bytes of a group whose planes start at lo. */
  ghost predicate Chains(c: seq<real>, x: seq<real>, lo: nat, m: nat, a: Four, s: Four) {
    Partial(c, x, a.s0, s.s0, lo, m) && Partial(c, x, a.s1, s.s1, lo + 32, m) &&
    Partial(c, x, a.s2, s.s2, lo + 64, m) && Partial(c, x, a.s3, s.s3, lo + 96, m)
  }

  datatype Four = Four(s0: real, s1: real, s2: real, s3: real)

  /** One byte feeds four chains. */
  lemma ByteStep(c: seq<real>, x: seq<real>, lo: nat, m: nat, a: Four, s: Four, t: seq<real>)
    requires Chains(c, x, lo, m, a, s) && lo + 96 + m < |c| && lo + 96 + m < |x| && |t| == 4
    requires c[lo + m] == t[0] && c[lo + 32 + m] == t[1] && c[lo + 64 + m] == t[2] && c[lo + 96 + m] == t[3]
    ensures Chains(c, x, lo, m + 1, a, Four(s.s0 + Mul(t[0], x[lo + m]), s.s1 + Mul(t[1], x[lo + 32 + m]),
                                            s.s2 + Mul(t[2], x[lo + 64 + m]), s.s3 + Mul(t[3], x[lo + 96 + m])))
  {
    PartialStep(c, x, a.s0, s.s0, lo, m, t[0]);
    PartialStep(c, x, a.s1, s.s1, lo + 32, m, t[1]);
    PartialStep(c, x, a.s2, s.s2, lo + 64, m, t[2]);
    PartialStep(c, x, a.s3, s.s3, lo + 96, m, t[3]);
  }

  function Terns(b: bv8): (t: seq<real>)
    ensures |t| == 4
  {
    [Tern(Two(b, 0)), Tern(Two(b, 1)), Tern(Two(b, 2)), Tern(Two(b, 3))]
  }

  lemma ByteCode(q: Block, g: nat, m: nat, l: nat, i: nat)
    requires Valid(q) && g < 2 && m < 32 && l < 4 && i == g * 128 + l * 32 + m
    ensures Codes(q)[i] == Terns(q.qs[g * 32 + m])[l]
  {
    CodeAt(q, g, l, m);
    TernIsCode(q.qs[g * 32 + m], l);
  }

  lemma ByteCodes(q: Block, g: nat, m: nat)
    requires Valid(q) && g < 2 && m < 32
    ensures var c, t := Codes(q), Terns(q.qs[g * 32 + m]);
            c[g * 128 + m] == t[0] && c[g * 128 + 32 + m] == t[1] && c[g * 128 + 64 + m] == t[2] &&
            c[g * 128 + 96 + m] == t[3]
  {
    ByteCode(q, g, m, 0, g * 128 + m);
    ByteCode(q, g, m, 1, g * 128 + 32 + m);
    ByteCode(q, g, m, 2, g * 128 + 64 + m);
    ByteCode(q, g, m, 3, g * 128 + 96 + m);
  }

  /** One 32-byte group of the kernel's inner loop. */
  method GroupSum(q: Block, x: seq<real>, g: nat, a: Four) returns (s: Four)
    requires Valid(q) && |x| == 256 && g < 2
    ensures Chains(Codes(q), x, g * 128, 32, a, s)
  {
    s := a;
    for m := 0 to 32
      invariant Chains(Codes(q), x, g * 128, m, a, s)
    {
      ByteCodes(q, g, m);
      var t := Terns(q.qs[g * 32 + m]);
      ByteStep(Codes(q), x, g * 128, m, a, s, t);
      s := Four(s.s0 + Mul(t[0], x[g * 128 + m]), s.s1 + Mul(t[1], x[g * 128 + 32 + m]),
                s.s2 + Mul(t[2], x[g * 128 + 64 + m]), s.s3 + Mul(t[3], x[g * 128 + 96 + m]));
    }
  }

  /** Both groups' four planes make the block. */
  lemma PlanesAreBlock(c: seq<real>, x: seq<real>, a: Four, s: Four)
    requires |c| == |x| == 256 && Chains(c, x, 0, 32, Four(0.0, 0.0, 0.0, 0.0), a) && Chains(c, x, 128, 32, a, s)
    ensures (s.s0 + s.s1) + (s.s2 + s.s3) == Dot(c, x)
  {
    SpanSplit(c, x, 0, 128, 256);
    Quarters(c, x, 0, 32);
    Quarters(c, x, 128, 32);
  }

  /** The kernel's work on one block, before the scale. */
  method BlockSum(q: Block, x: seq<real>) returns (s: real)
    requires Valid(q) && |x| == 256
    ensures s == Dot(Codes(q), x)
  {
    var a := GroupSum(q, x, 0, Four(0.0, 0.0, 0.0, 0.0));
    var b := GroupSum(q, x, 1, a);
    PlanesAreBlock(Codes(q), x, a, b);
    s := (b.s0 + b.s1) + (b.s2 + b.s3);
  }

  // ----- whole rows -----

  predicate ValidRow(row: seq<Block>) {
    forall b :: 0 <= b < |row| ==> Valid(row[b])
  }

  function Blocks(row: seq<Block>): (vs: seq<seq<real>>)
    requires ValidRow(row)
    ensures |vs| == |row| && AllOfLength(vs, 256) && forall b :: 0 <= b < |row| ==> vs[b] == Values(row[b])
  {
    seq(|row|, b requires 0 <= b < |row| => Values(row[b]))
  }

  /** deq_tq2_0 over a row. */
  method DequantizeRow(row: seq<Block>) returns (y: seq<real>)
    requires ValidRow(row)
    ensures y == RowOf(Blocks(row))
  {
    y := [];
    for b := 0 to |row|
      invariant y == RowOf(Blocks(row)[..b])
    {
      var out := Dequantize(row[b]);
      assert Blocks(row)[..b + 1][..b] == Blocks(row)[..b];
      y := y + out;
    }
    assert Blocks(row)[..|row|] == Blocks(row);
  }

  /** The kernel on one row equals dequantizing the row and taking its dot product with x. */
  method RowDot(row: seq<Block>, x: seq<real>) returns (acc: real)
    requires ValidRow(row) && |x| == |row| * 256
    ensures acc == RowProduct(Blocks(row), 256, x)
  {
    acc := 0.0;
    ghost var vs := Blocks(row);
    RowEnds(vs, 256, x);
    for b := 0 to |row|
      invariant acc == RowSofar(vs, 256, x, b)
    {
      var s := BlockSum(row[b], x[b * 256..b * 256 + 256]);
      ScaledStep(vs, 256, x, b, b * 256, Codes(row[b]), row[b].d, s);
      acc := acc + Mul(row[b].d, s);
    }
  }

  ghost predicate ValidRows(w: seq<seq<Block>>, x: seq<real>) {
    forall r :: 0 <= r < |w| ==> ValidRow(w[r]) && |x| == |w[r]| * 256
  }

  /** The result of every row. */
  ghost function Results(w: seq<seq<Block>>, x: seq<real>): (f: seq<real>)
    requires ValidRows(w, x)
    ensures |f| == |w| && forall r :: 0 <= r < |w| ==> f[r] == RowProduct(Blocks(w[r]), 256, x)
  {
    seq(|w|, r requires 0 <= r < |w| => RowProduct(Blocks(w[r]), 256, x))
  }

  /** rows_tq2_0: rows r0 up to r1 of the product, and no other entry of y. */
  method Rows(w: seq<seq<Block>>, x: seq<real>, y: array<real>, r0: nat, r1: nat)
    requires r0 <= r1 <= |w| <= y.Length && ValidRows(w, x)
    modifies y
    ensures Filled(y[..], old(y[..]), Results(w, x), r0, r1)
  {
    ghost var before, f := y[..], Results(w, x);
    for r := r0 to r1
      invariant Filled(y[..], before, f, r0, r)
    {
      var acc := RowDot(w[r], x);
      Store(y, before, f, r0, r, acc);
    }
  }
}
