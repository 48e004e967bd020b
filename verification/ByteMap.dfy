/** The byte-to-character map of byte-level BPE in src/tokenizer.c, and its reverse in
    vg_tokenizer_decode. Bit fields of bytes are written as ranges, quotients and remainders. */
module ByteMap {
  type Byte = b: nat | b < 256
  type Bytes = seq<Byte>

  /** gpt2_byte_to_cp: the bytes without a printable character of their own, in ascending order. */
  const FALLBACK: Bytes :=
    [0x00, 0x01, 0x02, 0x03, 0x04, 0x05, 0x06, 0x07, 0x08, 0x09, 0x0A, 0x0B, 0x0C, 0x0D, 0x0E, 0x0F] +
    [0x10, 0x11, 0x12, 0x13, 0x14, 0x15, 0x16, 0x17, 0x18, 0x19, 0x1A, 0x1B, 0x1C, 0x1D, 0x1E, 0x1F] +
    [0x20, 0x7F, 0x80, 0x81, 0x82, 0x83, 0x84, 0x85, 0x86, 0x87, 0x88, 0x89, 0x8A, 0x8B, 0x8C, 0x8D] +
    [0x8E, 0x8F, 0x90, 0x91, 0x92, 0x93, 0x94, 0x95, 0x96, 0x97, 0x98, 0x99, 0x9A, 0x9B, 0x9C, 0x9D] +
    [0x9E, 0x9F, 0xA0, 0xAD]

  /** gpt2_fallback_index, -1 for a byte that keeps its own value. */
  function FallbackIndex(b: Byte): int {
    if b <= 0x20 then b
    else if 0x7F <= b <= 0xA0 then 33 + b - 0x7F
    else if b == 0xAD then 67
    else -1
  }

  /** The table undoes the index. */
  lemma TableUndoesIndex(b: Byte)
    requires FallbackIndex(b) >= 0
    ensures FallbackIndex(b) < |FALLBACK| && FALLBACK[FallbackIndex(b)] == b
  {
    var i := FallbackIndex(b);
    TableInOrder(i);
  }

  /** The table's entries: three ascending stretches. */
  lemma TableInOrder(i: nat)
    requires i < 68
    ensures |FALLBACK| == 68 && FALLBACK[i] == if i <= 32 then i else if i <= 66 then i - 33 + 0x7F else 0xAD
  {
    match i
    case 0 => case 1 => case 2 => case 3 => case 4 => case 5 => case 6 => case 7 => case 8 => case 9 =>
    case 10 => case 11 => case 12 => case 13 => case 14 => case 15 => case 16 => case 17 => case 18 => case 19 =>
    case 20 => case 21 => case 22 => case 23 => case 24 => case 25 => case 26 => case 27 => case 28 => case 29 =>
    case 30 => case 31 => case 32 => case 33 => case 34 => case 35 => case 36 => case 37 => case 38 => case 39 =>
    case 40 => case 41 => case 42 => case 43 => case 44 => case 45 => case 46 => case 47 => case 48 => case 49 =>
    case 50 => case 51 => case 52 => case 53 => case 54 => case 55 => case 56 => case 57 => case 58 => case 59 =>
    case 60 => case 61 => case 62 => case 63 => case 64 => case 65 => case 66 => case 67 =>
    case _ =>
  }

  function CodePoint(b: Byte): nat {
    if FallbackIndex(b) >= 0 then 0x100 + FallbackIndex(b) else b
  }

  /** encode_byte_fwd: one byte as the UTF-8 of its character, one or two bytes long. */
  function Forward(b: Byte): (r: Bytes)
    ensures 1 <= |r| <= 2
  {
    var cp := CodePoint(b);
    if cp < 0x80 then [cp] else [0xC0 + cp / 64, 0x80 + cp % 64]
  }

  /** utf8_put: the bytes of a code point. */
  function Put(cp: nat): (r: Bytes)
    requires cp < 0x110000
    ensures 1 <= |r| <= 4
  {
    if cp < 0x80 then [cp]
    else if cp < 0x800 then [0xC0 + cp / 64, 0x80 + cp % 64]
    else if cp < 0x10000 then [0xE0 + cp / 4096, 0x80 + cp / 64 % 64, 0x80 + cp % 64]
    else [0xF0 + cp / 262144, 0x80 + cp / 4096 % 64, 0x80 + cp / 64 % 64, 0x80 + cp % 64]
  }

  /** The bytes below b that are not printable in Latin-1. */
  function Unprintable(b: nat): (n: nat)
    ensures n <= b
  {
    if b == 0 then 0
    else
      var c := b - 1;
      (if 33 <= c <= 126 || 161 <= c <= 172 || 174 <= c <= 255 then 0 else 1) + Unprintable(c)
  }

  lemma {:induction false} UnprintableIs(b: nat)
    requires b <= 256
    ensures Unprintable(b) == if b <= 33 then b else if b <= 127 then 33 else if b <= 161 then 33 + b - 127
                              else if b <= 173 then 67 else 68
  {
    if b > 0 {
      UnprintableIs(b - 1);
    }
  }

  lemma CodePointIs(b: Byte)
    ensures CodePoint(b) == if 33 <= b <= 126 || 161 <= b <= 172 || 174 <= b then b else 0x100 + Unprintable(b)
    ensures CodePoint(b) < 0x800 && Forward(b) == Put(CodePoint(b))
  {
    UnprintableIs(b);
  }

  /** A byte printable in Latin-1 is its own character; the others are numbered from U+0100 on, in ascending order. */
  lemma ForwardIsCanonical(b: Byte)
    ensures Forward(b) == Put(if 33 <= b <= 126 || 161 <= b <= 172 || 174 <= b then b else 0x100 + Unprintable(b))
  {
    CodePointIs(b);
  }

  function ForwardAll(bs: Bytes): Bytes {
    if bs == [] then [] else Forward(bs[0]) + ForwardAll(bs[1..])
  }

  /** A byte of a NUL-terminated string, the terminator included. */
  function Peek(s: Bytes, i: nat): Byte {
    if i < |s| then s[i] else 0
  }

  predicate Tail(b: Byte) {
    0x80 <= b < 0xC0
  }

  /** How many bytes the decoder takes as one character; a malformed lead byte stands alone. */
  function Length(s: Bytes): (n: nat)
    requires |s| > 0
    ensures 1 <= n <= |s|
  {
    var c := s[0];
    if 0xC0 <= c < 0xE0 && Tail(Peek(s, 1)) then 2
    else if 0xE0 <= c < 0xF0 && Tail(Peek(s, 1)) && Tail(Peek(s, 2)) then 3
    else if 0xF0 <= c < 0xF8 && Tail(Peek(s, 1)) && Tail(Peek(s, 2)) && Tail(Peek(s, 3)) then 4
    else 1
  }

  /** s starts with a lead byte for m bytes and as many bytes behind it as that takes. */
  ghost predicate Whole(s: Bytes, m: nat) {
    |s| >= m > 0 && (forall i :: 1 <= i < m ==> 128 <= s[i] <= 191) &&
    (m == 2 ==> 192 <= s[0] <= 223) && (m == 3 ==> 224 <= s[0] <= 239) && (m == 4 ==> 240 <= s[0] <= 247)
  }

  /** Bytes are taken together if and only if they make up a whole character. */
  lemma LengthIsWhole(s: Bytes, m: nat)
    requires |s| > 0 && 2 <= m <= 4
    ensures Length(s) == m <==> Whole(s, m)
  {
    if Whole(s, m) {
      assert Tail(s[1]) && (m > 2 ==> Tail(s[2])) && (m > 3 ==> Tail(s[3]));
    } else if Length(s) == m {
      assert forall i :: 1 <= i < m ==> Peek(s, i) == s[i];
    }
  }

  /** The character those bytes encode. */
  function CharAt(s: Bytes): nat
    requires |s| > 0
  {
    var a: nat, b: nat, c: nat, d: nat := s[0], Peek(s, 1), Peek(s, 2), Peek(s, 3);
    match Length(s)
    case 2 => a % 32 * 64 + b % 64
    case 3 => a % 16 * 4096 + b % 64 * 64 + c % 64
    case 4 => a % 8 * 262144 + b % 64 * 4096 + c % 64 * 64 + d % 64
    case _ => a
  }

  /** What the decoder writes for the first character of s. */
  function Emitted(s: Bytes): Bytes
    requires |s| > 0
  {
    var cp := CharAt(s);
    if 0x100 <= cp <= 0x143 then [FALLBACK[cp - 0x100]]
    else if 0xA1 <= cp <= 0xFF then [cp]
    else s[..Length(s)]
  }

  /** vg_tokenizer_decode on a byte-level token's text. */
  function Decode(s: Bytes): Bytes {
    if s == [] then [] else Emitted(s) + Decode(s[Length(s)..])
  }

  // ----- the decoder's loops -----

  /** The bytes of out lie in the buffer from at on, as far as it reaches. */
  ghost predicate Laid(buffer: Bytes, at: nat, out: Bytes) {
    at <= |buffer| &&
    if at + |out| <= |buffer| then buffer[at..at + |out|] == out else buffer[at..] == out[..|buffer| - at]
  }

  lemma LaidMore(buffer: Bytes, at: nat, out: Bytes, b: Byte)
    requires Laid(buffer, at, out)
    ensures Laid(if at + |out| < |buffer| then buffer[at + |out| := b] else buffer, at, out + [b])
  {
  }

  /** One byte of output: stored if there is room, and counted. */
  method PutByte(buf: array<Byte>, at: nat, n: nat, b: Byte, ghost out: Bytes)
    requires Laid(buf[..], at, out) && n == |out|
    modifies buf
    ensures Laid(buf[..], at, out + [b]) && buf[..at] == old(buf[..at])
  {
    LaidMore(buf[..], at, out, b);
    ghost var was := buf[..];
    if at + n < buf.Length {
      buf[at + n] := b;
      assert buf[..] == was[at + n := b];
    }
  }

  /** The bytes of one character. */
  method PutBytes(buf: array<Byte>, at: nat, n: nat, bs: Bytes, ghost out: Bytes) returns (n': nat, ghost out': Bytes)
    requires Laid(buf[..], at, out) && n == |out|
    modifies buf
    ensures n' == |out'| && out' == out + bs && Laid(buf[..], at, out') && buf[..at] == old(buf[..at])
  {
    n', out' := n, out;
    for k := 0 to |bs|
      invariant at <= buf.Length && n' == |out'| && out' == out + bs[..k] && Laid(buf[..], at, out')
      invariant buf[..at] == old(buf[..at])
    {
      PutByte(buf, at, n', bs[k], out');
      AppendAssociates(out, bs[..k], [bs[k]]);
      assert bs[..k + 1] == bs[..k] + [bs[k]];
      n', out' := n' + 1, out' + [bs[k]];
    }
    assert bs[..|bs|] == bs;
  }

  /** out is what the decoder has written of text before s. */
  ghost predicate Decoding(text: Bytes, s: nat, out: Bytes) {
    s <= |text| && out + Decode(text[s..]) == Decode(text)
  }

  lemma DecodingMore(text: Bytes, s: nat, out: Bytes, s': nat, out': Bytes)
    requires Decoding(text, s, out) && s < |text|
    requires s' == s + Length(text[s..]) && out' == out + Emitted(text[s..])
    ensures Decoding(text, s', out') && s < s'
  {
    assert text[s..][Length(text[s..])..] == text[s'..];
    AppendAssociates(out, Emitted(text[s..]), Decode(text[s'..]));
  }

  lemma DecodingEnds(text: Bytes, s: nat, out: Bytes)
    requires Decoding(text, s, out) && s == |text|
    ensures out == Decode(text)
  {
    assert text[s..] == [];
    EmptyAppends(out);
  }

  lemma DecodingStarts(text: Bytes)
    ensures Decoding(text, 0, [])
  {
    assert text[0..] == text;
    EmptyAppends(Decode(text));
  }

  /** The counting pass of vg_tokenizer_decode. */
  method Measure(text: Bytes) returns (n: nat)
    ensures n == |Decode(text)|
  {
    n := 0;
    var s := 0;
    ghost var out: Bytes := [];
    DecodingStarts(text);
    while s < |text|
      invariant Decoding(text, s, out) && n == |out|
      decreases |text| - s
    {
      var rest := text[s..];
      var s' := s + Length(rest);
      ghost var out' := out + Emitted(rest);
      DecodingMore(text, s, out, s', out');
      s, n, out := s', n + |Emitted(rest)|, out';
    }
    DecodingEnds(text, s, out);
  }

  /** What the buffer holds after the decoder: as much of out as fits with a terminator behind it. */
  ghost predicate Terminated(buffer: Bytes, at: nat, out: Bytes) {
    at <= |buffer| &&
    (at < |buffer| ==>
       var n := if at + |out| < |buffer| then |out| else |buffer| - at - 1;
       buffer[at..at + n] == out[..n] && buffer[at + n] == 0)
  }

  lemma LaidAt(buffer: Bytes, at: nat, out: Bytes, i: nat)
    requires Laid(buffer, at, out) && i < |out| && at + i < |buffer|
    ensures buffer[at + i] == out[i]
  {
    if at + |out| <= |buffer| {
      assert buffer[at..at + |out|][i] == out[i];
    } else {
      assert buffer[at..][i] == out[..|buffer| - at][i];
    }
  }

  lemma Terminate(buffer: Bytes, at: nat, out: Bytes, n: nat)
    requires Laid(buffer, at, out) && at < |buffer|
    requires n == if at + |out| < |buffer| then |out| else |buffer| - at - 1
    ensures Terminated(buffer[at + n := 0], at, out)
  {
    var ended := buffer[at + n := 0];
    forall i | 0 <= i < n ensures ended[at..at + n][i] == out[..n][i] {
      LaidAt(buffer, at, out, i);
    }
  }

  /** vg_tokenizer_decode on a byte-level token's text: buf from at on takes what fits, the whole length is returned. */
  method DecodeText(text: Bytes, buf: array<Byte>, at: nat) returns (n: nat)
    requires at <= buf.Length
    modifies buf
    ensures n == |Decode(text)| && Terminated(buf[..], at, Decode(text)) && buf[..at] == old(buf[..at])
  {
    n := 0;
    var s := 0;
    ghost var out: Bytes := [];
    DecodingStarts(text);
    while s < |text|
      invariant Decoding(text, s, out) && n == |out| && Laid(buf[..], at, out) && buf[..at] == old(buf[..at])
      decreases |text| - s
    {
      var rest := text[s..];
      var s' := s + Length(rest);
      ghost var out';
      n, out' := PutBytes(buf, at, n, Emitted(rest), out);
      DecodingMore(text, s, out, s', out');
      s, out := s', out';
    }
    DecodingEnds(text, s, out);
    ghost var was := buf[..];
    if at < buf.Length {
      var end := if at + n < buf.Length then at + n else buf.Length - 1;
      Terminate(buf[..], at, out, end - at);
      buf[end] := 0;
      assert buf[..] == was[end := 0];
    }
  }

  lemma AppendAssociates<T>(a: seq<T>, b: seq<T>, c: seq<T>)
    ensures a + b + c == a + (b + c)
  {
  }

  lemma EmptyAppends<T>(a: seq<T>)
    ensures a + [] == a && [] + a == a
  {
  }

  /** The first character of a forward-mapped string is read back whole. */
  lemma ReadsBack(b: Byte, rest: Bytes)
    ensures Length(Forward(b) + rest) == |Forward(b)| && CharAt(Forward(b) + rest) == CodePoint(b)
  {
    var s := Forward(b) + rest;
    assert s[0] == Forward(b)[0] && (|Forward(b)| > 1 ==> Peek(s, 1) == Forward(b)[1]);
  }

  /** A whole character is read back whole. */
  lemma PutReadsBack(cp: nat, rest: Bytes)
    requires cp < 0x110000
    ensures Length(Put(cp) + rest) == |Put(cp)| && CharAt(Put(cp) + rest) == cp
  {
    PutLength(cp, rest);
    Sextets(cp);
    var s := Put(cp) + rest;
    match |Put(cp)|
    case 1 =>
    case 2 => TwoBytes(s, cp / 64, cp % 64);
    case 3 => ThreeBytes(s, cp / 4096, cp / 64 % 64, cp % 64);
    case 4 => FourBytes(s, cp / 262144, cp / 4096 % 64, cp / 64 % 64, cp % 64);
  }

  lemma TwoBytes(s: Bytes, x: nat, y: nat)
    requires |s| > 0 && Length(s) == 2 && x < 32 && y < 64 && s[0] == 0xC0 + x && Peek(s, 1) == 0x80 + y
    ensures CharAt(s) == x * 64 + y
  {
    LowBits(x, 0, 0);
    Tails(y);
  }

  lemma ThreeBytes(s: Bytes, x: nat, y: nat, z: nat)
    requires |s| > 0 && Length(s) == 3 && x < 16 && y < 64 && z < 64
    requires s[0] == 0xE0 + x && Peek(s, 1) == 0x80 + y && Peek(s, 2) == 0x80 + z
    ensures CharAt(s) == x * 4096 + y * 64 + z
  {
    LowBits(0, x, 0);
    Tails(y);
    Tails(z);
  }

  lemma FourBytes(s: Bytes, x: nat, y: nat, z: nat, w: nat)
    requires |s| > 0 && Length(s) == 4 && x < 8 && y < 64 && z < 64 && w < 64
    requires s[0] == 0xF0 + x && Peek(s, 1) == 0x80 + y && Peek(s, 2) == 0x80 + z && Peek(s, 3) == 0x80 + w
    ensures CharAt(s) == x * 262144 + y * 4096 + z * 64 + w
  {
    LowBits(0, 0, x);
    Tails(y);
    Tails(z);
    Tails(w);
  }

  lemma LowBits(x: nat, y: nat, z: nat)
    requires x < 32 && y < 16 && z < 8
    ensures (0xC0 + x) % 32 == x && (0xE0 + y) % 16 == y && (0xF0 + z) % 8 == z
  {
  }

  lemma Tails(y: nat)
    requires y < 64
    ensures (0x80 + y) % 64 == y
  {
  }

  lemma PutLength(cp: nat, rest: Bytes)
    requires cp < 0x110000
    ensures Length(Put(cp) + rest) == |Put(cp)| && (Put(cp) + rest)[0] == Put(cp)[0]
    ensures forall i :: 0 <= i < |Put(cp)| ==> Peek(Put(cp) + rest, i) == Put(cp)[i]
  {
    var s := Put(cp) + rest;
    assert forall i :: 0 <= i < |Put(cp)| ==> Peek(s, i) == Put(cp)[i];
  }

  /** A code point from its groups of six bits. */
  lemma Sextets(cp: nat)
    ensures cp == cp / 64 * 64 + cp % 64 && cp / 4096 == cp / 64 / 64 && cp / 262144 == cp / 4096 / 64
    ensures cp == cp / 4096 * 4096 + cp / 64 % 64 * 64 + cp % 64
    ensures cp == cp / 262144 * 262144 + cp / 4096 % 64 * 4096 + cp / 64 % 64 * 64 + cp % 64
  {
  }

  /** Characters that stand for a byte decode to it, every other character to itself. */
  lemma DecodeChar(cp: nat, rest: Bytes)
    requires cp < 0x110000
    ensures Decode(Put(cp) + rest) ==
            (if 0x100 <= cp <= 0x143 then [FALLBACK[cp - 0x100]] else if 161 <= cp <= 255 then [cp] else Put(cp)) +
            Decode(rest)
  {
    PutReadsBack(cp, rest);
    assert (Put(cp) + rest)[|Put(cp)|..] == rest && (Put(cp) + rest)[..|Put(cp)|] == Put(cp);
  }

  lemma EmitsByte(b: Byte, rest: Bytes)
    ensures Emitted(Forward(b) + rest) == [b]
  {
    ReadsBack(b, rest);
    if FallbackIndex(b) >= 0 {
      TableUndoesIndex(b);
    }
    assert (Forward(b) + rest)[..|Forward(b)|] == Forward(b);
  }

  lemma DecodeForwarded(b: Byte, rest: Bytes)
    ensures Decode(Forward(b) + rest) == [b] + Decode(rest)
  {
    EmitsByte(b, rest);
    ReadsBack(b, rest);
    assert (Forward(b) + rest)[|Forward(b)|..] == rest;
  }

  /** Decoding undoes the forward map on every byte string. */
  lemma {:induction false} DecodeForwardAll(bs: Bytes)
    ensures Decode(ForwardAll(bs)) == bs
  {
    if bs != [] {
      DecodeForwarded(bs[0], ForwardAll(bs[1..]));
      DecodeForwardAll(bs[1..]);
    }
  }

  ghost predicate Ascii(s: Bytes) {
    forall i :: 0 <= i < |s| ==> s[i] < 0x80
  }

  /** ASCII text decodes to itself. */
  lemma {:induction false} DecodeAscii(s: Bytes)
    requires Ascii(s)
    ensures Decode(s) == s
  {
    if s != [] {
      assert Length(s) == 1;
      DecodeAscii(s[1..]);
    }
  }

  lemma {:induction false} ForwardAppend(a: Bytes, b: Bytes)
    ensures ForwardAll(a + b) == ForwardAll(a) + ForwardAll(b)
  {
    if a == [] {
      EmptyAppends(b);
    } else {
      assert (a + b)[1..] == a[1..] + b;
      ForwardAppend(a[1..], b);
      AppendAssociates(Forward(a[0]), ForwardAll(a[1..]), ForwardAll(b));
    }
  }
}
