/** The radix-3 ternary block TQ1_0: its decoder in src/quant.c and its fused kernel in src/cpu_ops.c. */
module PackedTQ1 {
  import opened PackedBits
  import opened Division
  import opened Spans

  datatype Block = Block(qs: seq<bv8>, qh: seq<bv8>, d: real)

  predicate Valid(q: Block) {
    |q.qs| == 48 && |q.qh| == 4
  }

  /** k_pow3. */
  function Pow3(n: nat): bv8
    requires n < 5
  {
    [1, 3, 9, 27, 81][n]
  }

  function Top(b: bv8): int {
    ((b as bv16 * 3) >> 8) as int - 1
  }

  /** Ternary digit n of a byte: the byte times 3^n in eight bits, times 3, top bits, less one. */
  function Tri(b: bv8, n: nat): int
    requires n < 5
  {
    Top(b * Pow3(n))
  }

  /** Weight i without its scale: five planes of 32, five planes of 16, four planes of 4. */
  function Code(q: Block, i: nat): real
    requires Valid(q) && i < 256
  {
    if i < 160 then Tri(q.qs[i % 32], i / 32) as real
    else if i < 240 then Tri(q.qs[32 + (i - 160) % 16], (i - 160) / 16) as real
    else Tri(q.qh[(i - 240) % 4], (i - 240) / 4) as real
  }

  function Codes(q: Block): (c: seq<real>)
    requires Valid(q)
    ensures |c| == 256 && forall i :: 0 <= i < 256 ==> c[i] == Code(q, i)
  {
    seq(256, i requires 0 <= i < 256 => Code(q, i))
  }

  function Values(q: Block): (v: seq<real>)
    requires Valid(q)
    ensures |v| == 256 && forall i :: 0 <= i < 256 ==> v[i] == Mul(Code(q, i), q.d)
  {
    seq(256, i requires 0 <= i < 256 => Mul(Code(q, i), q.d))
  }

  lemma WideAt(q: Block, n: nat, m: nat, i: nat)
    requires Valid(q) && n < 5 && m < 32 && i == 32 * n + m
    ensures Codes(q)[i] == Tri(q.qs[m], n) as real
  {
    DivUnique(i, 32, n, m);
  }

  lemma NarrowAt(q: Block, n: nat, m: nat, i: nat)
    requires Valid(q) && n < 5 && m < 16 && i == 160 + 16 * n + m
    ensures Codes(q)[i] == Tri(q.qs[32 + m], n) as real
  {
    DivUnique(i - 160, 16, n, m);
  }

  lemma HighAt(q: Block, n: nat, m: nat, i: nat)
    requires Valid(q) && n < 4 && m < 4 && i == 240 + 4 * n + m
    ensures Codes(q)[i] == Tri(q.qh[m], n) as real
  {
    DivUnique(i - 240, 4, n, m);
  }

  // ----- packing -----

  /** Five ternary digits, the first one highest. */
  function Number(s: seq<int>): (q: nat)
    requires CodesIn(s, 5, 0, 3)
    ensures q < 243
  {
    81 * s[0] + 27 * s[1] + 9 * s[2] + 3 * s[3] + s[4]
  }

  /** What the byte that holds them is: their number as a fraction of 243, in 256ths, rounded up. */
  function Fraction(q: nat): (b: nat)
    requires q < 243
    ensures b < 256
  {
    (256 * q + 242) / 243
  }

  /** In eight bits, tripling drops a digit. */
  lemma Tripled(b: bv8)
    ensures (b * 3) as int == b as int * 3 % 256
  {
  }

  lemma TopDigit(b: bv8)
    ensures Tri(b, 0) == b as int * 3 / 256 - 1
  {
  }

  lemma NextPower(b: bv8)
    ensures b * 3 == b * 3 * 1 && b * 9 == b * 3 * 3 && b * 27 == b * 3 * 9 && b * 81 == b * 3 * 27
  {
  }

  lemma NextDigit(b: bv8, n: nat)
    requires 0 < n < 5
    ensures Tri(b, n) == Tri(b * 3, n - 1)
  {
    NextPower(b);
    Powers();
  }

  lemma Powers()
    ensures Pow3(0) == 1 && Pow3(1) == 3 && Pow3(2) == 9 && Pow3(3) == 27 && Pow3(4) == 81
  {
  }

  /** The digits from n on, as a number below 243. */
  function Rest(s: seq<int>, n: nat): int
    requires CodesIn(s, 5, 0, 3) && n < 5
  {
    match n
    case 0 => 81 * s[0] + 27 * s[1] + 9 * s[2] + 3 * s[3] + s[4]
    case 1 => 81 * s[1] + 27 * s[2] + 9 * s[3] + 3 * s[4]
    case 2 => 81 * s[2] + 27 * s[3] + 9 * s[4]
    case 3 => 81 * s[3] + 27 * s[4]
    case 4 => 81 * s[4]
  }

  /** When the digits before n are gone, a byte is what is left of the fraction, and not yet 256 * 3^n / 243 more. */
  ghost predicate Left(x: nat, s: seq<int>, n: nat)
    requires CodesIn(s, 5, 0, 3) && n < 5
  {
    256 * Rest(s, n) <= 243 * x < 256 * Rest(s, n) + [243, 729, 2187, 6561, 19683][n]
  }

  lemma LeftDigit(x: nat, s: seq<int>, n: nat)
    requires CodesIn(s, 5, 0, 3) && n < 5 && Left(x, s, n)
    ensures x * 3 / 256 == s[n] && (n < 4 ==> Left(x * 3 % 256, s, n + 1))
  {
    match n
    case 0 => case 1 => case 2 => case 3 => case 4 =>
  }

  lemma {:induction false} LeftDigits(b: bv8, s: seq<int>, from: nat, n: nat)
    requires CodesIn(s, 5, 0, 3) && from + n < 5 && Left(b as int, s, from)
    ensures Tri(b, n) == s[from + n] - 1
    decreases n
  {
    LeftDigit(b as int, s, from);
    if n == 0 {
      TopDigit(b);
    } else {
      NextDigit(b, n);
      Tripled(b);
      LeftDigits(b * 3, s, from + 1, n - 1);
    }
  }

  function Held(s: seq<int>): bv8
    requires CodesIn(s, 5, 0, 3)
  {
    Byte(Fraction(Number(s)))
  }

  /** Every digit comes back out of its byte. */
  lemma DigitsBack(s: seq<int>, n: nat)
    requires CodesIn(s, 5, 0, 3) && n < 5
    ensures Tri(Held(s), n) == s[n] - 1
  {
    ByteIs(Fraction(Number(s)));
    LeftDigits(Held(s), s, 0, n);
  }

  /** Five codes a step apart, as digits; there is no code from 256 on. */
  function Column(codes: seq<int>, at: nat, step: nat): (s: seq<int>)
    requires CodesIn(codes, 256, -1, 2)
    ensures CodesIn(s, 5, 0, 3)
  {
    [DigitOf(codes, at), DigitOf(codes, at + step), DigitOf(codes, at + 2 * step), DigitOf(codes, at + 3 * step),
     DigitOf(codes, at + 4 * step)]
  }

  function DigitOf(codes: seq<int>, i: nat): (t: int)
    requires CodesIn(codes, 256, -1, 2)
    ensures 0 <= t < 3
  {
    if i < 256 then codes[i] + 1 else 0
  }

  /** The block that holds 256 codes: five in a byte 32 apart, then 16 apart, and the last sixteen four in a byte, 4
      apart. */
  function Pack(codes: seq<int>, d: real): (q: Block)
    requires CodesIn(codes, 256, -1, 2)
    ensures Valid(q)
  {
    Block(seq(32, m requires 0 <= m < 32 => Held(Column(codes, m, 32))) +
          seq(16, m requires 0 <= m < 16 => Held(Column(codes, 160 + m, 16))),
          seq(4, m requires 0 <= m < 4 => Held(Column(codes, 240 + m, 4))), d)
  }

  lemma ColumnAt(codes: seq<int>, at: nat, step: nat, n: nat, i: nat)
    requires CodesIn(codes, 256, -1, 2) && n < 5 && i == step * n + at < 256
    ensures Column(codes, at, step)[n] == codes[i] + 1
  {
    match n
    case 0 => case 1 => case 2 => case 3 => case 4 =>
  }

  lemma Columns(codes: seq<int>, d: real, k: nat, l: nat, m: nat)
    requires CodesIn(codes, 256, -1, 2) && k < 32 && l < 16 && m < 4
    ensures Pack(codes, d).qs[k] == Held(Column(codes, k, 32))
    ensures Pack(codes, d).qs[32 + l] == Held(Column(codes, 160 + l, 16))
    ensures Pack(codes, d).qh[m] == Held(Column(codes, 240 + m, 4))
  {
  }

  /** Code n of a column comes back. */
  lemma ColumnBack(codes: seq<int>, at: nat, step: nat, n: nat, i: nat)
    requires CodesIn(codes, 256, -1, 2) && n < 5 && i == step * n + at < 256
    ensures Tri(Held(Column(codes, at, step)), n) == codes[i]
  {
    ColumnAt(codes, at, step, n, i);
    DigitsBack(Column(codes, at, step), n);
  }

  lemma CodeBack(codes: seq<int>, d: real, i: nat)
    requires CodesIn(codes, 256, -1, 2) && i < 256
    ensures Code(Pack(codes, d), i) == codes[i] as real
  {
    if i < 160 {
      ColumnBack(codes, i % 32, 32, i / 32, i);
      Columns(codes, d, i % 32, 0, 0);
    } else if i < 240 {
      ColumnBack(codes, 160 + (i - 160) % 16, 16, (i - 160) / 16, i);
      Columns(codes, d, 0, (i - 160) % 16, 0);
    } else {
      ColumnBack(codes, 240 + (i - 240) % 4, 4, (i - 240) / 4, i);
      Columns(codes, d, 0, 0, (i - 240) % 4);
    }
  }

  /** Decoding gives every packed code back, times the scale. */
  lemma PackedBack(codes: seq<int>, d: real, i: nat)
    requires CodesIn(codes, 256, -1, 2) && i < 256
    ensures Values(Pack(codes, d))[i] == codes[i] as real * d
  {
    CodeBack(codes, d, i);
  }

  /** The first n weights are written. */
  ghost predicate Upto(y: seq<real>, q: Block, n: nat)
    requires Valid(q)
  {
    n <= 256 && y == Values(q)[..n]
  }

  lemma OneMore(y: seq<real>, q: Block, n: nat, v: real)
    requires Valid(q) && Upto(y, q, n) && n < 256 && v == Mul(Codes(q)[n], q.d)
    ensures Upto(y + [v], q, n + 1)
  {
  }

  /** deq_tq1_0 on one block: the three groups of planes, in output order. */
  method Dequantize(q: Block) returns (y: seq<real>)
    requires Valid(q)
    ensures y == Values(q)
  {
    y := DequantizeWide(q);
    y := DequantizeNarrow(q, y);
    y := DequantizeHigh(q, y);
  }

  method DequantizeWide(q: Block) returns (y: seq<real>)
    requires Valid(q)
    ensures Upto(y, q, 160)
  {
    y := [];
    for n := 0 to 5
      invariant Upto(y, q, 32 * n)
    {
      for m := 0 to 32
        invariant Upto(y, q, 32 * n + m)
      {
        WideAt(q, n, m, 32 * n + m);
        OneMore(y, q, 32 * n + m, Mul(Tri(q.qs[m], n) as real, q.d));
        y := y + [Mul(Tri(q.qs[m], n) as real, q.d)];
      }
    }
  }

  method DequantizeNarrow(q: Block, before: seq<real>) returns (y: seq<real>)
    requires Valid(q) && Upto(before, q, 160)
    ensures Upto(y, q, 240)
  {
    y := before;
    for n := 0 to 5
      invariant Upto(y, q, 160 + 16 * n)
    {
      for m := 0 to 16
        invariant Upto(y, q, 160 + 16 * n + m)
      {
        NarrowAt(q, n, m, 160 + 16 * n + m);
        OneMore(y, q, 160 + 16 * n + m, Mul(Tri(q.qs[32 + m], n) as real, q.d));
        y := y + [Mul(Tri(q.qs[32 + m], n) as real, q.d)];
      }
    }
  }

  method DequantizeHigh(q: Block, before: seq<real>) returns (y: seq<real>)
    requires Valid(q) && Upto(before, q, 240)
    ensures y == Values(q)
  {
    y := before;
    for n := 0 to 4
      invariant Upto(y, q, 240 + 4 * n)
    {
      for m := 0 to 4
        invariant Upto(y, q, 240 + 4 * n + m)
      {
        HighAt(q, n, m, 240 + 4 * n + m);
        OneMore(y, q, 240 + 4 * n + m, Mul(Tri(q.qh[m], n) as real, q.d));
        y := y + [Mul(Tri(q.qh[m], n) as real, q.d)];
      }
    }
    assert Values(q)[..256] == Values(q);
  }

  /** One entry of k_tq1_lut. */
  function Lut(b: bv8, n: nat): real
    requires n < 5
  {
    Tri(b, n) as real
  }

  /** The five multiply-adds of one byte, w apart. */
  lemma FiveTerms(c: seq<real>, x: seq<real>, lo: nat, w: nat, m: nat)
    requires m < w && lo + 5 * w <= |c| && lo + 5 * w <= |x|
    ensures Width(5, w) == 5 * w
    ensures PlaneTerms(c, x, lo, w, 5, m) ==
            Mul(c[lo + m], x[lo + m]) + Mul(c[lo + w + m], x[lo + w + m]) + Mul(c[lo + 2 * w + m], x[lo + 2 * w + m]) +
            Mul(c[lo + 3 * w + m], x[lo + 3 * w + m]) + Mul(c[lo + 4 * w + m], x[lo + 4 * w + m])
  {
    WidthTimes(5, w);
    WidthTimes(4, w);
    WidthTimes(3, w);
    WidthTimes(2, w);
    WidthTimes(1, w);
    var p1 := PlaneTerms(c, x, lo + w, w, 4, m);
    var p2 := PlaneTerms(c, x, lo + w + w, w, 3, m);
    var p3 := PlaneTerms(c, x, lo + w + w + w, w, 2, m);
    var p4 := PlaneTerms(c, x, lo + w + w + w + w, w, 1, m);
    var p5 := PlaneTerms(c, x, lo + w + w + w + w + w, w, 0, m);
    assert p1 == Mul(c[lo + w + m], x[lo + w + m]) + p2;
    assert p2 == Mul(c[lo + 2 * w + m], x[lo + 2 * w + m]) + p3;
    assert p3 == Mul(c[lo + 3 * w + m], x[lo + 3 * w + m]) + p4;
    assert p4 == Mul(c[lo + 4 * w + m], x[lo + 4 * w + m]) + p5;
  }

  /** The sum after m bytes of five planes from lo on, on top of what was there before. */
  ghost predicate Woven(c: seq<real>, x: seq<real>, lo: nat, w: nat, m: nat, a: real, s: real) {
    Width(5, w) == 5 * w && m <= w && lo + 5 * w <= |c| && lo + 5 * w <= |x| && s == a + PlanesSum(c, x, lo, w, 5, m)
  }

  lemma WovenStep(c: seq<real>, x: seq<real>, lo: nat, w: nat, m: nat, a: real, s: real, s': real)
    requires Woven(c, x, lo, w, m, a, s) && m < w
    requires s' == s + Mul(c[lo + m], x[lo + m]) + Mul(c[lo + w + m], x[lo + w + m]) +
                   Mul(c[lo + 2 * w + m], x[lo + 2 * w + m]) + Mul(c[lo + 3 * w + m], x[lo + 3 * w + m]) +
                   Mul(c[lo + 4 * w + m], x[lo + 4 * w + m])
    ensures Woven(c, x, lo, w, m + 1, a, s')
  {
    FiveTerms(c, x, lo, w, m);
    PlanesStep(c, x, lo, w, 5, m);
  }

  lemma WovenStart(c: seq<real>, x: seq<real>, lo: nat, w: nat, a: real)
    requires lo + 5 * w <= |c| && lo + 5 * w <= |x|
    ensures Woven(c, x, lo, w, 0, a, a)
  {
    WidthTimes(5, w);
    PlanesStart(c, x, lo, w, 5);
  }

  lemma WovenWhole(c: seq<real>, x: seq<real>, lo: nat, w: nat, a: real, s: real)
    requires Woven(c, x, lo, w, w, a, s)
    ensures s == a + Span(c, x, lo, lo + 5 * w)
  {
    PlanesWhole(c, x, lo, w, 5);
  }

  lemma WideStep(q: Block, x: seq<real>, m: nat, s: real, s': real)
    requires Valid(q) && |x| == 256 && m < 32 && Woven(Codes(q), x, 0, 32, m, 0.0, s)
    requires var b := q.qs[m];
             s' == s + Mul(Lut(b, 0), x[m]) + Mul(Lut(b, 1), x[32 + m]) + Mul(Lut(b, 2), x[64 + m]) +
                   Mul(Lut(b, 3), x[96 + m]) + Mul(Lut(b, 4), x[128 + m])
    ensures Woven(Codes(q), x, 0, 32, m + 1, 0.0, s')
  {
    WideCodes(q, m);
    WovenStep(Codes(q), x, 0, 32, m, 0.0, s, s');
  }

  /** The 32-byte group: each byte loaded once for five chains of one accumulator. */
  method WideSum(q: Block, x: seq<real>) returns (s: real)
    requires Valid(q) && |x| == 256
    ensures s == Span(Codes(q), x, 0, 160)
  {
    s := 0.0;
    ghost var c := Codes(q);
    WovenStart(c, x, 0, 32, 0.0);
    for m := 0 to 32
      invariant Woven(c, x, 0, 32, m, 0.0, s)
    {
      var b := q.qs[m];
      ghost var s0 := s;
      s := s + Mul(Lut(b, 0), x[m]);
      s := s + Mul(Lut(b, 1), x[32 + m]);
      s := s + Mul(Lut(b, 2), x[64 + m]);
      s := s + Mul(Lut(b, 3), x[96 + m]);
      s := s + Mul(Lut(b, 4), x[128 + m]);
      WideStep(q, x, m, s0, s);
    }
    WovenWhole(c, x, 0, 32, 0.0, s);
  }

  lemma WideCodes(q: Block, m: nat)
    requires Valid(q) && m < 32
    ensures var c, b := Codes(q), q.qs[m];
            c[m] == Lut(b, 0) && c[32 + m] == Lut(b, 1) && c[64 + m] == Lut(b, 2) && c[96 + m] == Lut(b, 3) &&
            c[128 + m] == Lut(b, 4)
  {
    WideAt(q, 0, m, m);
    WideAt(q, 1, m, 32 + m);
    WideAt(q, 2, m, 64 + m);
    WideAt(q, 3, m, 96 + m);
    WideAt(q, 4, m, 128 + m);
  }

  lemma NarrowStep(q: Block, x: seq<real>, m: nat, a: real, s: real, s': real)
    requires Valid(q) && |x| == 256 && m < 16 && Woven(Codes(q), x, 160, 16, m, a, s)
    requires var b := q.qs[32 + m];
             s' == s + Mul(Lut(b, 0), x[160 + m]) + Mul(Lut(b, 1), x[176 + m]) + Mul(Lut(b, 2), x[192 + m]) +
                   Mul(Lut(b, 3), x[208 + m]) + Mul(Lut(b, 4), x[224 + m])
    ensures Woven(Codes(q), x, 160, 16, m + 1, a, s')
  {
    NarrowCodes(q, m);
    WovenStep(Codes(q), x, 160, 16, m, a, s, s');
  }

  /** The 16-byte tail. */
  method NarrowSum(q: Block, x: seq<real>, a: real) returns (s: real)
    requires Valid(q) && |x| == 256
    ensures s == a + Span(Codes(q), x, 160, 240)
  {
    s := a;
    ghost var c := Codes(q);
    WovenStart(c, x, 160, 16, a);
    for m := 0 to 16
      invariant Woven(c, x, 160, 16, m, a, s)
    {
      var b := q.qs[32 + m];
      ghost var s0 := s;
      s := s + Mul(Lut(b, 0), x[160 + m]);
      s := s + Mul(Lut(b, 1), x[176 + m]);
      s := s + Mul(Lut(b, 2), x[192 + m]);
      s := s + Mul(Lut(b, 3), x[208 + m]);
      s := s + Mul(Lut(b, 4), x[224 + m]);
      NarrowStep(q, x, m, a, s0, s);
    }
    WovenWhole(c, x, 160, 16, a, s);
  }

  lemma NarrowCodes(q: Block, m: nat)
    requires Valid(q) && m < 16
    ensures var c, b := Codes(q), q.qs[32 + m];
            c[160 + m] == Lut(b, 0) && c[176 + m] == Lut(b, 1) && c[192 + m] == Lut(b, 2) && c[208 + m] == Lut(b, 3) &&
            c[224 + m] == Lut(b, 4)
  {
    NarrowAt(q, 0, m, 160 + m);
    NarrowAt(q, 1, m, 176 + m);
    NarrowAt(q, 2, m, 192 + m);
    NarrowAt(q, 3, m, 208 + m);
    NarrowAt(q, 4, m, 224 + m);
  }

  /** The qh bytes, decoded in place rather than by the table. */
  method HighSum(q: Block, x: seq<real>, a: real) returns (s: real)
    requires Valid(q) && |x| == 256
    ensures s == a + Span(Codes(q), x, 240, 256)
  {
    s := a;
    for n := 0 to 4
      invariant Partial(Codes(q), x, a, s, 240, 4 * n)
    {
      for m := 0 to 4
        invariant Partial(Codes(q), x, a, s, 240, 4 * n + m)
      {
        var xi := (((q.qh[m] * Pow3(n)) as bv16 * 3) >> 8) as int - 1;
        HighAt(q, n, m, 240 + 4 * n + m);
        PartialStep(Codes(q), x, a, s, 240, 4 * n + m, xi as real);
        s := s + Mul(xi as real, x[240 + (4 * n + m)]);
      }
    }
  }

  /** The kernel's work on one block, before the scale. */
  method BlockSum(q: Block, x: seq<real>) returns (s: real)
    requires Valid(q) && |x| == 256
    ensures s == Dot(Codes(q), x)
  {
    s := WideSum(q, x);
    s := NarrowSum(q, x, s);
    s := HighSum(q, x, s);
    SpanSplit(Codes(q), x, 0, 160, 256);
    SpanSplit(Codes(q), x, 160, 240, 256);
  }

  // ----- whole rows -----

  predicate ValidRow(row: seq<Block>) {
    forall b :: 0 <= b < |row| ==> Valid(row[b])
  }

  function Blocks(row: seq<Block>): (vs: seq<seq<real>>)
    requires ValidRow(row)
    ensures |vs| == |row| && AllOfLength(vs, 256) && forall b :: 0 <= b < |row| ==> vs[b] == Values(row[b])
  {
    seq(|row|, b requires 0 <= b < |row| => Values(row[b]))
  }

  /** deq_tq1_0 over a row. */
  method DequantizeRow(row: seq<Block>) returns (y: seq<real>)
    requires ValidRow(row)
    ensures y == RowOf(Blocks(row))
  {
    y := [];
    for b := 0 to |row|
      invariant y == RowOf(Blocks(row)[..b])
    {
      var out := Dequantize(row[b]);
      assert Blocks(row)[..b + 1][..b] == Blocks(row)[..b];
      y := y + out;
    }
    assert Blocks(row)[..|row|] == Blocks(row);
  }

  /** The kernel on one row equals dequantizing the row and taking its dot product with x. */
  method RowDot(row: seq<Block>, x: seq<real>) returns (acc: real)
    requires ValidRow(row) && |x| == |row| * 256
    ensures acc == RowProduct(Blocks(row), 256, x)
  {
    acc := 0.0;
    ghost var vs := Blocks(row);
    RowEnds(vs, 256, x);
    for b := 0 to |row|
      invariant acc == RowSofar(vs, 256, x, b)
    {
      var s := BlockSum(row[b], x[b * 256..b * 256 + 256]);
      ScaledStep(vs, 256, x, b, b * 256, Codes(row[b]), row[b].d, s);
      acc := acc + Mul(row[b].d, s);
    }
  }

  ghost predicate ValidRows(w: seq<seq<Block>>, x: seq<real>) {
    forall r :: 0 <= r < |w| ==> ValidRow(w[r]) && |x| == |w[r]| * 256
  }

  /** The result of every row. */
  ghost function Results(w: seq<seq<Block>>, x: seq<real>): (f: seq<real>)
    requires ValidRows(w, x)
    ensures |f| == |w| && forall r :: 0 <= r < |w| ==> f[r] == RowProduct(Blocks(w[r]), 256, x)
  {
    seq(|w|, r requires 0 <= r < |w| => RowProduct(Blocks(w[r]), 256, x))
  }

  /** rows_tq1_0: rows r0 up to r1 of the product, and no other entry of y. */
  method Rows(w: seq<seq<Block>>, x: seq<real>, y: array<real>, r0: nat, r1: nat)
    requires r0 <= r1 <= |w| <= y.Length && ValidRows(w, x)
    modifies y
    ensures Filled(y[..], old(y[..]), Results(w, x), r0, r1)
  {
    ghost var before, f := y[..], Results(w, x);
    for r := r0 to r1
      invariant Filled(y[..], before, f, r0, r)
    {
      var acc := RowDot(w[r], x);
      Store(y, before, f, r0, r, acc);
    }
  }
}
