/** Fields of packed bytes, shared by the low-bit formats. */
module PackedBits {

  /** Bit pair l of a byte. */
  function Two(b: bv8, l: nat): int
    requires l < 4
  {
    ((b >> (2 * l)) & 3) as int
  }

  /** k_tern2. */
  function Tern(code: int): real {
    if code < 0 || code > 3 then 0.0 else
    [-1.0, 0.0, 1.0, 2.0][code]
  }

  lemma TernIsCode(b: bv8, l: nat)
    requires l < 4
    ensures 0 <= Two(b, l) < 4 && Tern(Two(b, l)) == (Two(b, l) - 1) as real
  {
  }

  /** Bit t of a byte. */
  function Bit(b: bv8, t: nat): int
    requires t < 8
  {
    ((b >> t) & 1) as int
  }

  /** k_sign. */
  function Sign(bit: int): real {
    if bit != 0 && bit != 1 then 0.0 else [-1.0, 1.0][bit]
  }

  lemma BitIsBit(b: bv8, t: nat)
    requires t < 8
    ensures Bit(b, t) == 0 || Bit(b, t) == 1
  {
  }

  // ----- bytes that hold given fields -----

  /** n codes from lo up to below hi. */
  predicate CodesIn(codes: seq<int>, n: nat, lo: int, hi: int) {
    |codes| == n && forall i :: 0 <= i < n ==> lo <= codes[i] < hi
  }

  /** The byte of a number, bit by bit. */
  function Byte(n: nat): bv8
    requires n < 256
  {
    if n == 0 then 0 else (Byte(n / 2) << 1) | (if n % 2 == 0 then 0 else 1)
  }

  lemma {:induction false} ByteIs(n: nat)
    requires n < 256
    ensures Byte(n) as int == n
  {
    if n > 0 {
      ByteIs(n / 2);
      Doubled(Byte(n / 2), if n % 2 == 0 then 0 else 1);
    }
  }

  lemma Doubled(b: bv8, low: bv8)
    requires b as int < 128 && (low == 0 || low == 1)
    ensures ((b << 1) | low) as int == 2 * (b as int) + low as int
  {
  }

  function Nibbles(lo: nat, hi: nat): bv8
    requires lo < 16 && hi < 16
  {
    Byte(lo + 16 * hi)
  }

  lemma NibblesBack(lo: nat, hi: nat)
    requires lo < 16 && hi < 16
    ensures (Nibbles(lo, hi) & 0x0F) as int == lo && (Nibbles(lo, hi) >> 4) as int == hi
  {
    ByteIs(lo + 16 * hi);
    LowNibble(Nibbles(lo, hi));
    TwoNibbles(lo, hi);
  }

  lemma TwoNibbles(lo: nat, hi: nat)
    requires lo < 16
    ensures (lo + 16 * hi) % 16 == lo && (lo + 16 * hi) / 16 == hi
  {
  }

  lemma LowNibble(b: bv8)
    ensures (b & 0x0F) as int == b as int % 16 && (b >> 4) as int == b as int / 16
  {
  }

  type Digit4 = a: nat | a < 4

  /** Two bits for each entry, lowest first. */
  function Pairs(s: seq<Digit4>): (n: nat)
    requires |s| <= 4
    ensures n < [1, 4, 16, 64, 256][|s|]
  {
    if s == [] then 0 else s[0] + 4 * Pairs(s[1..])
  }

  lemma FirstPair(s: seq<Digit4>)
    requires 0 < |s| <= 4
    ensures Pairs(s) % 4 == s[0] && Pairs(s) / 4 == Pairs(s[1..])
  {
  }

  lemma {:induction false} PairsBack(s: seq<Digit4>, b: bv8, l: nat)
    requires l < |s| <= 4 && b as int == Pairs(s)
    ensures Two(b, l) == s[l]
  {
    LowPair(b);
    FirstPair(s);
    if l > 0 {
      PairsBack(s[1..], b >> 2, l - 1);
      ShiftPairs(b, l);
    }
  }

  lemma PairsHeld(s: seq<Digit4>, l: nat)
    requires l < |s| <= 4
    ensures Two(Byte(Pairs(s)), l) == s[l]
  {
    ByteIs(Pairs(s));
    PairsBack(s, Byte(Pairs(s)), l);
  }

  lemma LowPair(b: bv8)
    ensures (b & 3) as int == b as int % 4 && (b >> 2) as int == b as int / 4 && Two(b, 0) == (b & 3) as int
  {
  }

  lemma ShiftPairs(b: bv8, l: nat)
    requires 0 < l < 4
    ensures Two(b, l) == Two(b >> 2, l - 1)
  {
    match l
    case 1 => case 2 => case 3 =>
  }

  /** One bit for each entry, lowest first. */
  function Bits(s: seq<bool>): (n: nat)
    requires |s| <= 8
    ensures n < [1, 2, 4, 8, 16, 32, 64, 128, 256][|s|]
  {
    if s == [] then 0 else (if s[0] then 1 else 0) + 2 * Bits(s[1..])
  }

  lemma {:induction false} BitsBack(s: seq<bool>, b: bv8, t: nat)
    requires t < |s| <= 8 && b as int == Bits(s)
    ensures Bit(b, t) == if s[t] then 1 else 0
  {
    LowBit(b);
    if t > 0 {
      BitsBack(s[1..], b >> 1, t - 1);
      ShiftBits(b, t);
    }
  }

  lemma LowBit(b: bv8)
    ensures (b & 1) as int == b as int % 2 && (b >> 1) as int == b as int / 2 && Bit(b, 0) == (b & 1) as int
  {
  }

  lemma ShiftBits(b: bv8, t: nat)
    requires 0 < t < 8
    ensures Bit(b, t) == Bit(b >> 1, t - 1)
  {
    match t
    case 1 => case 2 => case 3 => case 4 => case 5 => case 6 => case 7 =>
  }

  /** Low four bits and two bits above them. */
  lemma JoinSix(lo: bv8, hi: bv8)
    requires lo as int < 16 && hi as int < 4
    ensures (lo | (hi << 4)) as int == lo as int + 16 * (hi as int)
  {
  }
}
