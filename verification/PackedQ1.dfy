/** The 1-bit block Q1_0: its decoder in src/quant.c and its fused kernel in src/cpu_ops.c. */
module PackedQ1 {
  import opened PackedBits
  import opened Division
  import opened Spans

  datatype Block = Block(qs: seq<bv8>, d: real)

  predicate Valid(q: Block) {
    |q.qs| == 16
  }

  /** Weight i without its scale: the sign bits of each byte, lowest first. */
  function Code(q: Block, i: nat): real
    requires Valid(q) && i < 128
  {
    if Bit(q.qs[i / 8], i % 8) == 1 then 1.0 else -1.0
  }

  function Codes(q: Block): (c: seq<real>)
    requires Valid(q)
    ensures |c| == 128 && forall i :: 0 <= i < 128 ==> c[i] == Code(q, i)
  {
    seq(128, i requires 0 <= i < 128 => Code(q, i))
  }

  function Values(q: Block): (v: seq<real>)
    requires Valid(q)
    ensures |v| == 128 && forall i :: 0 <= i < 128 ==> v[i] == Mul(Code(q, i), q.d)
  {
    seq(128, i requires 0 <= i < 128 => Mul(Code(q, i), q.d))
  }

  /** The block that holds 128 signs: eight in a byte, lowest first. */
  function Pack(plus: seq<bool>, d: real): Block
    requires |plus| == 128
  {
    Block(seq(16, j requires 0 <= j < 16 => Byte(Bits(plus[8 * j..8 * j + 8]))), d)
  }

  /** Decoding gives every packed sign back, times the scale. */
  lemma PackedBack(plus: seq<bool>, d: real, i: nat)
    requires |plus| == 128 && i < 128
    ensures Valid(Pack(plus, d)) && Values(Pack(plus, d))[i] == if plus[i] then d else -d
  {
    var s := plus[8 * (i / 8)..8 * (i / 8) + 8];
    ByteIs(Bits(s));
    BitsBack(s, Byte(Bits(s)), i % 8);
    assert s[i % 8] == plus[i];
    SignedScale(d);
  }

  lemma SignedScale(d: real)
    ensures Mul(1.0, d) == d && Mul(-1.0, d) == -d
  {
  }

  /** deq_q1_0 on one block. */
  method Dequantize(q: Block) returns (y: seq<real>)
    requires Valid(q)
    ensures y == Values(q)
  {
    y := [];
    for j := 0 to 128
      invariant |y| == j && y == Values(q)[..j]
    {
      var bit := Bit(q.qs[j / 8], j % 8);
      SignedScale(q.d);
      BitIsBit(q.qs[j / 8], j % 8);
      y := y + [if bit != 0 then q.d else -q.d];
    }
  }

  /** One of the eight multiply-adds a byte feeds. */
  lemma BitStep(q: Block, x: seq<real>, j: nat, t: nat, s: real)
    requires Valid(q) && |x| == 128 && j < 16 && t < 8 && Partial(Codes(q), x, 0.0, s, 0, j * 8 + t)
    ensures Partial(Codes(q), x, 0.0, s + Mul(Sign(Bit(q.qs[j], t)), x[j * 8 + t]), 0, j * 8 + t + 1)
  {
    DivUnique(j * 8 + t, 8, j, t);
    BitIsBit(q.qs[j], t);
    PartialStep(Codes(q), x, 0.0, s, 0, j * 8 + t, Sign(Bit(q.qs[j], t)));
  }

  /** Four of the eight lines of the kernel's inner loop. */
  method HalfByte(q: Block, x: seq<real>, j: nat, t: nat, a: real) returns (s: real)
    requires Valid(q) && |x| == 128 && j < 16 && t <= 4 && Partial(Codes(q), x, 0.0, a, 0, j * 8 + t)
    ensures Partial(Codes(q), x, 0.0, s, 0, j * 8 + t + 4)
  {
    s := a;
    var b := q.qs[j];
    BitStep(q, x, j, t, s);
    s := s + Mul(Sign(Bit(b, t)), x[j * 8 + t]);
    BitStep(q, x, j, t + 1, s);
    s := s + Mul(Sign(Bit(b, t + 1)), x[j * 8 + t + 1]);
    BitStep(q, x, j, t + 2, s);
    s := s + Mul(Sign(Bit(b, t + 2)), x[j * 8 + t + 2]);
    BitStep(q, x, j, t + 3, s);
    s := s + Mul(Sign(Bit(b, t + 3)), x[j * 8 + t + 3]);
  }

  /** The kernel's work on one block, before the scale. */
  method BlockSum(q: Block, x: seq<real>) returns (s: real)
    requires Valid(q) && |x| == 128
    ensures s == Dot(Codes(q), x)
  {
    s := 0.0;
    for j := 0 to 16
      invariant Partial(Codes(q), x, 0.0, s, 0, j * 8)
    {
      s := HalfByte(q, x, j, 0, s);
      s := HalfByte(q, x, j, 4, s);
    }
  }

  // ----- whole rows -----

  predicate ValidRow(row: seq<Block>) {
    forall b :: 0 <= b < |row| ==> Valid(row[b])
  }

  function Blocks(row: seq<Block>): (vs: seq<seq<real>>)
    requires ValidRow(row)
    ensures |vs| == |row| && AllOfLength(vs, 128) && forall b :: 0 <= b < |row| ==> vs[b] == Values(row[b])
  {
    seq(|row|, b requires 0 <= b < |row| => Values(row[b]))
  }

  /** deq_q1_0 over a row. */
  method DequantizeRow(row: seq<Block>) returns (y: seq<real>)
    requires ValidRow(row)
    ensures y == RowOf(Blocks(row))
  {
    y := [];
    for b := 0 to |row|
      invariant y == RowOf(Blocks(row)[..b])
    {
      var out := Dequantize(row[b]);
      assert Blocks(row)[..b + 1][..b] == Blocks(row)[..b];
      y := y + out;
    }
    assert Blocks(row)[..|row|] == Blocks(row);
  }

  /** The kernel on one row equals dequantizing the row and taking its dot product with x. */
  method RowDot(row: seq<Block>, x: seq<real>) returns (acc: real)
    requires ValidRow(row) && |x| == |row| * 128
    ensures acc == RowProduct(Blocks(row), 128, x)
  {
    acc := 0.0;
    ghost var vs := Blocks(row);
    RowEnds(vs, 128, x);
    for b := 0 to |row|
      invariant acc == RowSofar(vs, 128, x, b)
    {
      var s := BlockSum(row[b], x[b * 128..b * 128 + 128]);
      ScaledStep(vs, 128, x, b, b * 128, Codes(row[b]), row[b].d, s);
      acc := acc + Mul(row[b].d, s);
    }
  }

  ghost predicate ValidRows(w: seq<seq<Block>>, x: seq<real>) {
    forall r :: 0 <= r < |w| ==> ValidRow(w[r]) && |x| == |w[r]| * 128
  }

  /** The result of every row. */
  ghost function Results(w: seq<seq<Block>>, x: seq<real>): (f: seq<real>)
    requires ValidRows(w, x)
    ensures |f| == |w| && forall r :: 0 <= r < |w| ==> f[r] == RowProduct(Blocks(w[r]), 128, x)
  {
    seq(|w|, r requires 0 <= r < |w| => RowProduct(Blocks(w[r]), 128, x))
  }

  /** rows_q1_0: rows r0 up to r1 of the product, and no other entry of y. */
  method Rows(w: seq<seq<Block>>, x: seq<real>, y: array<real>, r0: nat, r1: nat)
    requires r0 <= r1 <= |w| <= y.Length && ValidRows(w, x)
    modifies y
    ensures Filled(y[..], old(y[..]), Results(w, x), r0, r1)
  {
    ghost var before, f := y[..], Results(w, x);
    for r := r0 to r1
      invariant Filled(y[..], before, f, r0, r)
    {
      var acc := RowDot(w[r], x);
      Store(y, before, f, r0, r, acc);
    }
  }
}
