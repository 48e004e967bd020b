/** The SentencePiece path of src/tokenizer.c: spaces become U+2581, the longest token is taken at
    every position, and decoding turns U+2581 back into a space. Characters are those of UTF-8
    (section 3 of RFC 3629), told apart by their lead byte. */
module SentencePiece {
  import opened ByteMap
  import opened ControlTokens
  import opened TokenIndex

  /** U+2581 in UTF-8. */
  const MARK: Bytes := [0xE2, 0x96, 0x81]

  // ----- UTF-8 text -----

  /** The length the encoder reads off a lead byte. */
  function CharLength(b: Byte): (n: nat)
    ensures 1 <= n <= 4
  {
    if b >= 0xF0 then 4 else if b >= 0xE0 then 3 else if b >= 0xC0 then 2 else 1
  }

  /** s starts with one whole character. */
  ghost predicate StartsChar(s: Bytes) {
    |s| > 0 && !Tail(s[0]) && CharLength(s[0]) <= |s| && forall i :: 1 <= i < CharLength(s[0]) ==> Tail(s[i])
  }

  ghost predicate Utf8(s: Bytes)
    decreases |s|
  {
    s == [] || (StartsChar(s) && Utf8(s[CharLength(s[0])..]))
  }

  /** Whole characters, none of them U+2581 and none NUL. */
  ghost predicate Plain(s: Bytes)
    decreases |s|
  {
    s == [] || (StartsChar(s) && s[0] != 0 && s[..CharLength(s[0])] != MARK && Plain(s[CharLength(s[0])..]))
  }

  /** Every code point is one character: its lead byte tells how many bytes follow. U+2581 is the mark. */
  lemma PutIsChar(cp: nat)
    requires cp < 0x110000
    ensures StartsChar(Put(cp)) && |Put(cp)| == CharLength(Put(cp)[0]) && Put(0x2581) == MARK
  {
  }

  lemma DropAppend(a: Bytes, b: Bytes, n: nat)
    requires n <= |a|
    ensures (a + b)[n..] == a[n..] + b && (a + b)[..n] == a[..n]
  {
  }

  lemma {:induction false} Utf8Append(a: Bytes, b: Bytes)
    requires Utf8(a)
    ensures Utf8(a + b) <==> Utf8(b)
    decreases |a|
  {
    if a == [] {
      EmptyAppends(b);
    } else {
      var n := CharLength(a[0]);
      DropAppend(a, b, n);
      Utf8Append(a[n..], b);
      assert (a + b)[0] == a[0] && forall i :: 0 <= i < n ==> (a + b)[i] == a[i];
    }
  }

  /** Stepping from lead byte to lead byte ends exactly at the end of s. */
  ghost predicate Lands(s: Bytes)
    decreases |s|
  {
    s == [] || (CharLength(s[0]) <= |s| && Lands(s[CharLength(s[0])..]))
  }

  lemma {:induction false} LandsAppend(a: Bytes, b: Bytes)
    requires Utf8(a)
    ensures Lands(a + b) <==> Lands(b)
    decreases |a|
  {
    if a == [] {
      EmptyAppends(b);
    } else {
      var n := CharLength(a[0]);
      DropAppend(a, b, n);
      assert (a + b)[0] == a[0];
      LandsAppend(a[n..], b);
    }
  }

  // ----- white space -----

  /** The normalisation loop: with collapse, a space after a space, or at the start, is dropped. */
  function Normalise(text: Bytes, collapse: bool, prevSpace: bool): Bytes {
    if text == [] then []
    else if text[0] == 32 && collapse && prevSpace then Normalise(text[1..], collapse, prevSpace)
    else [text[0]] + Normalise(text[1..], collapse, text[0] == 32)
  }

  /** Spaces written as U+2581. */
  function Escape(s: Bytes): Bytes {
    if s == [] then [] else (if s[0] == 32 then MARK else [s[0]]) + Escape(s[1..])
  }

  /** How many bytes the decoder takes at once. */
  function Step(s: Bytes): (n: nat)
    requires |s| > 0
    ensures 1 <= n <= |s|
  {
    if Peek(s, 0) == 0xE2 && Peek(s, 1) == 0x96 && Peek(s, 2) == 0x81 then 3 else 1
  }

  /** vg_tokenizer_decode without the byte map: U+2581 is a space, everything else itself. */
  function Unescape(s: Bytes): Bytes {
    if s == [] then [] else (if Step(s) == 3 then [32] else [s[0]]) + Unescape(s[Step(s)..])
  }

  /** Decoding does not look across whole characters. */
  lemma {:induction false} UnescapeAppend(a: Bytes, b: Bytes)
    requires Utf8(a)
    ensures Unescape(a + b) == Unescape(a) + Unescape(b)
    decreases |a|
  {
    if a == [] {
      EmptyAppends(b);
      EmptyAppends(Unescape(b));
    } else {
      var n := CharLength(a[0]);
      UnescapeChar(a[..n], a[n..]);
      UnescapeChar(a[..n], a[n..] + b);
      AppendAssociates(a[..n], a[n..], b);
      assert a[..n] + a[n..] == a;
      UnescapeAppend(a[n..], b);
      AppendAssociates(CharText(a[..n]), Unescape(a[n..]), Unescape(b));
    }
  }

  /** What one character decodes to. */
  function CharText(c: Bytes): Bytes {
    if c == MARK then [32] else c
  }

  ghost predicate OneChar(c: Bytes) {
    StartsChar(c) && |c| == CharLength(c[0])
  }

  lemma UnescapeChar(c: Bytes, rest: Bytes)
    requires OneChar(c)
    ensures Unescape(c + rest) == CharText(c) + Unescape(rest)
  {
    if c == MARK {
      assert (c + rest)[3..] == rest;
    } else {
      UnescapeBytes(c, rest, 0);
      assert c[0..] == c;
    }
  }

  /** The bytes of a character other than U+2581 come out one by one. */
  lemma {:induction false} UnescapeBytes(c: Bytes, rest: Bytes, i: nat)
    requires OneChar(c) && c != MARK && i <= |c|
    ensures Unescape(c[i..] + rest) == c[i..] + Unescape(rest)
    decreases |c| - i
  {
    var s := c[i..] + rest;
    if i == |c| {
      EmptyAppends(rest);
      EmptyAppends(Unescape(rest));
    } else {
      assert s[0] == c[i] && s[1..] == c[i + 1..] + rest;
      StepIsOne(c, rest, i);
      UnescapeBytes(c, rest, i + 1);
      assert c[i..] == [c[i]] + c[i + 1..];
      AppendAssociates([c[i]], c[i + 1..], Unescape(rest));
    }
  }

  lemma StepIsOne(c: Bytes, rest: Bytes, i: nat)
    requires OneChar(c) && c != MARK && i < |c|
    ensures Step(c[i..] + rest) == 1
  {
    var s := c[i..] + rest;
    if i == 0 && c[0] == 0xE2 {
      assert s[1] == c[1] && s[2] == c[2];
      assert c == [c[0], c[1], c[2]];
    }
  }

  lemma OneCharIsUtf8(c: Bytes)
    requires OneChar(c)
    ensures Utf8(c)
  {
    assert c[|c|..] == [];
  }

  /** Decoding undoes the escaping of text without U+2581. */
  lemma {:induction false} UnescapeEscape(s: Bytes)
    requires Plain(s)
    ensures Unescape(Escape(s)) == s && Utf8(Escape(s))
    decreases |s|
  {
    if s != [] {
      var n := CharLength(s[0]);
      var c, rest := s[..n], s[n..];
      assert c + rest == s;
      var e := if c[0] == 32 then MARK else c;
      UnescapeEscape(rest);
      EscapeChar(c, rest);
      UnescapeChar(e, Escape(rest));
      OneCharIsUtf8(e);
      Utf8Append(e, Escape(rest));
    }
  }

  lemma EscapeChar(c: Bytes, rest: Bytes)
    requires OneChar(c)
    ensures Escape(c + rest) == (if c[0] == 32 then MARK else c) + Escape(rest)
  {
    if c[0] == 32 {
      assert (c + rest)[1..] == rest;
    } else {
      EscapeBytes(c, rest, 0);
      assert c[0..] == c;
    }
  }

  lemma {:induction false} EscapeBytes(c: Bytes, rest: Bytes, i: nat)
    requires OneChar(c) && c[0] != 32 && i <= |c|
    ensures Escape(c[i..] + rest) == c[i..] + Escape(rest)
    decreases |c| - i
  {
    if i == |c| {
      EmptyAppends(rest);
      EmptyAppends(Escape(rest));
    } else {
      assert (c[i..] + rest)[0] == c[i] && (c[i..] + rest)[1..] == c[i + 1..] + rest;
      EscapeBytes(c, rest, i + 1);
      assert c[i..] == [c[i]] + c[i + 1..];
      AppendAssociates([c[i]], c[i + 1..], Escape(rest));
    }
  }

  // ----- normalised text -----

  lemma {:induction false} NormaliseBytes(c: Bytes, rest: Bytes, i: nat, collapse: bool, prev: bool)
    requires OneChar(c) && c[0] != 32 && i < |c|
    ensures Normalise(c[i..] + rest, collapse, prev) == c[i..] + Normalise(rest, collapse, false)
    decreases |c| - i
  {
    assert (c[i..] + rest)[0] == c[i] && (c[i..] + rest)[1..] == c[i + 1..] + rest;
    assert c[i..] == [c[i]] + c[i + 1..];
    if i + 1 < |c| {
      NormaliseBytes(c, rest, i + 1, collapse, false);
      AppendAssociates([c[i]], c[i + 1..], Normalise(rest, collapse, false));
    } else {
      EmptyAppends(rest);
    }
  }

  /** Normalising drops or keeps whole characters. */
  lemma NormaliseChar(c: Bytes, rest: Bytes, collapse: bool, prev: bool)
    requires OneChar(c)
    ensures Normalise(c + rest, collapse, prev) ==
            if c[0] != 32 then c + Normalise(rest, collapse, false)
            else if collapse && prev then Normalise(rest, collapse, prev)
            else c + Normalise(rest, collapse, true)
  {
    if c[0] != 32 {
      NormaliseBytes(c, rest, 0, collapse, prev);
      assert c[0..] == c;
    } else {
      assert (c + rest)[1..] == rest;
    }
  }

  /** Every character but the space is a token. */
  ghost predicate Covered(s: Bytes, vocab: seq<Bytes>)
    decreases |s|
  {
    s == [] || (StartsChar(s) && (s[0] == 32 || s[..CharLength(s[0])] in vocab) &&
                Covered(s[CharLength(s[0])..], vocab))
  }

  lemma PrefixChar(c: Bytes, rest: Bytes)
    requires OneChar(c)
    ensures StartsChar(c + rest) && (c + rest)[..|c|] == c && (c + rest)[|c|..] == rest && (c + rest)[0] == c[0]
  {
  }

  lemma {:induction false} NormaliseKeeps(s: Bytes, vocab: seq<Bytes>, collapse: bool, prev: bool)
    requires Plain(s) && Covered(s, vocab)
    ensures Plain(Normalise(s, collapse, prev)) && Covered(Normalise(s, collapse, prev), vocab)
    decreases |s|
  {
    if s != [] {
      var n := CharLength(s[0]);
      var c, rest := s[..n], s[n..];
      assert c + rest == s;
      NormaliseChar(c, rest, collapse, prev);
      NormaliseKeeps(rest, vocab, collapse, c[0] == 32);
      PrefixChar(c, Normalise(rest, collapse, c[0] == 32));
    }
  }

  // ----- greedy matching -----

  /** The longest token that starts s, no longer than n and no shorter than its first character; 0 if none. */
  function Longest(vocab: seq<Bytes>, s: Bytes, n: nat): (l: nat)
    requires |s| > 0 && n <= |s|
    ensures l == 0 || (CharLength(s[0]) <= l <= n && s[..l] in vocab)
    decreases n
  {
    if n < CharLength(s[0]) then 0 else if s[..n] in vocab then n else Longest(vocab, s, n - 1)
  }

  /** No longer stretch is a token. */
  lemma {:induction false} LongestIsLongest(vocab: seq<Bytes>, s: Bytes, n: nat, l: nat)
    requires |s| > 0 && CharLength(s[0]) <= l <= n <= |s| && s[..l] in vocab
    ensures l <= Longest(vocab, s, n)
    decreases n
  {
    if s[..n] !in vocab {
      LongestIsLongest(vocab, s, n - 1, l);
    }
  }

  /** Matches stop short of the 512-byte scratch buffer. */
  function Reach(s: Bytes): nat {
    if |s| < 511 then |s| else 511
  }

  function Least(a: nat, b: nat): nat {
    if a < b then a else b
  }

  /** How far one turn of the loop moves; a character without a token is skipped whole. */
  function Advance(vocab: seq<Bytes>, s: Bytes): (n: nat)
    requires |s| > 0
    ensures 1 <= n <= |s|
  {
    var l := Longest(vocab, s, Reach(s));
    if l > 0 then l else Least(CharLength(s[0]), |s|)
  }

  function IdAt(vocab: seq<Bytes>, s: Bytes): Id
    requires |s| > 0
  {
    var l := Longest(vocab, s, Reach(s));
    if l > 0 then First(vocab, s[..l]) else 0
  }

  /** What one turn must do, up to 511 bytes at a time: take the first entry of the longest token that starts s and
      has a whole first character; if there is none, id 0 and one character, or what there is of it. */
  ghost predicate Turn(vocab: seq<Bytes>, s: Bytes, id: Id, n: nat)
    requires |s| > 0
  {
    if exists l: nat :: TokenAt(vocab, s, l) then
      TokenAt(vocab, s, n) && (forall l: nat :: TokenAt(vocab, s, l) ==> l <= n) &&
      id < |vocab| && vocab[id] == s[..n] && vocab[id] !in vocab[..id]
    else
      id == 0 && n == Least(CharLength(s[0]), |s|)
  }

  ghost predicate TokenAt(vocab: seq<Bytes>, s: Bytes, l: nat)
    requires |s| > 0
  {
    CharLength(s[0]) <= l <= |s| && l < 512 && s[..l] in vocab
  }

  lemma TurnTaken(vocab: seq<Bytes>, s: Bytes)
    requires |s| > 0
    ensures Turn(vocab, s, IdAt(vocab, s), Advance(vocab, s))
  {
    var n := Longest(vocab, s, Reach(s));
    forall l: nat | TokenAt(vocab, s, l) ensures l <= n {
      LongestIsLongest(vocab, s, Reach(s), l);
    }
    if n > 0 {
      assert TokenAt(vocab, s, n);
      FirstMisses(vocab, s[..n]);
      forall i | 0 <= i < IdAt(vocab, s) ensures vocab[i] != s[..n] {
        FirstIsFirst(vocab, s[..n], i);
      }
    }
  }

  function Greedy(vocab: seq<Bytes>, s: Bytes): seq<Id>
    decreases |s|
  {
    if s == [] then [] else [IdAt(vocab, s)] + Greedy(vocab, s[Advance(vocab, s)..])
  }

  function Texts(vocab: seq<Bytes>, ids: seq<Id>): Bytes {
    if ids == [] then [] else (if ids[0] < |vocab| then Unescape(vocab[ids[0]]) else []) + Texts(vocab, ids[1..])
  }

  ghost predicate Utf8Tokens(vocab: seq<Bytes>) {
    forall i :: 0 <= i < |vocab| ==> Utf8(vocab[i])
  }

  /** Every character, the mark included, is a token. */
  ghost predicate CharsIn(s: Bytes, vocab: seq<Bytes>)
    decreases |s|
  {
    s == [] || (StartsChar(s) && s[..CharLength(s[0])] in vocab && CharsIn(s[CharLength(s[0])..], vocab))
  }

  lemma {:induction false} CharsInRest(a: Bytes, b: Bytes, vocab: seq<Bytes>)
    requires Utf8(a) && CharsIn(a + b, vocab)
    ensures CharsIn(b, vocab) && Utf8(b)
    decreases |a|
  {
    if a == [] {
      EmptyAppends(b);
      CharsAreUtf8(b, vocab);
    } else {
      var n := CharLength(a[0]);
      DropAppend(a, b, n);
      assert (a + b)[0] == a[0];
      CharsInRest(a[n..], b, vocab);
    }
  }

  lemma {:induction false} CharsAreUtf8(s: Bytes, vocab: seq<Bytes>)
    requires CharsIn(s, vocab)
    ensures Utf8(s)
    decreases |s|
  {
    if s != [] {
      CharsAreUtf8(s[CharLength(s[0])..], vocab);
    }
  }

  /** One turn takes a token whole and leaves whole characters. */
  lemma TakesToken(vocab: seq<Bytes>, s: Bytes, n: nat)
    requires s != [] && CharsIn(s, vocab) && Utf8Tokens(vocab) && n == Advance(vocab, s)
    ensures IdAt(vocab, s) < |vocab| && vocab[IdAt(vocab, s)] == s[..n] && Utf8(s[..n]) && CharsIn(s[n..], vocab)
    ensures CharLength(s[0]) <= n
  {
    LongestIsLongest(vocab, s, Reach(s), CharLength(s[0]));
    FirstMisses(vocab, s[..n]);
    assert s[..n] + s[n..] == s;
    CharsInRest(s[..n], s[n..], vocab);
  }

  /** Greedy matching loses nothing: the tokens decode to what the text decodes to. */
  lemma {:induction false} GreedyDecodes(vocab: seq<Bytes>, s: Bytes)
    requires CharsIn(s, vocab) && Utf8Tokens(vocab)
    ensures Texts(vocab, Greedy(vocab, s)) == Unescape(s)
    decreases |s|
  {
    if s != [] {
      var n := Advance(vocab, s);
      TakesToken(vocab, s, n);
      GreedyDecodes(vocab, s[n..]);
      GreedyUnfold(vocab, s, n);
      UnescapeAppend(s[..n], s[n..]);
      assert s[..n] + s[n..] == s;
    }
  }

  lemma GreedyUnfold(vocab: seq<Bytes>, s: Bytes, n: nat)
    requires s != [] && n == Advance(vocab, s) && IdAt(vocab, s) < |vocab|
    ensures Texts(vocab, Greedy(vocab, s)) == Unescape(vocab[IdAt(vocab, s)]) + Texts(vocab, Greedy(vocab, s[n..]))
  {
    assert Greedy(vocab, s)[1..] == Greedy(vocab, s[n..]);
  }

  // ----- staying inside the buffer -----

  /** No turn of the greedy loop steps past the terminator: it takes a token, or its character is complete. */
  ghost predicate StaysInside(vocab: seq<Bytes>, s: Bytes)
    decreases |s|
  {
    s == [] || ((Longest(vocab, s, Reach(s)) > 0 || CharLength(s[0]) <= |s|) &&
                StaysInside(vocab, s[Advance(vocab, s)..]))
  }

  /** With whole-character tokens that depends on the text alone: the walk over lead bytes must end at its end. */
  lemma {:induction false} StaysInsideLands(vocab: seq<Bytes>, s: Bytes)
    requires Utf8Tokens(vocab)
    ensures StaysInside(vocab, s) <==> Lands(s)
    decreases |s|
  {
    if s != [] {
      var n := Advance(vocab, s);
      StaysInsideLands(vocab, s[n..]);
      if Longest(vocab, s, Reach(s)) > 0 {
        var i :| 0 <= i < |vocab| && vocab[i] == s[..n];
        assert s[..n] + s[n..] == s;
        LandsAppend(s[..n], s[n..]);
      }
    }
  }

  /** Well-formed text always lands. */
  lemma Utf8Stays(vocab: seq<Bytes>, s: Bytes)
    requires Utf8(s) && Utf8Tokens(vocab)
    ensures StaysInside(vocab, s)
  {
    LandsAppend(s, []);
    EmptyAppends(s);
    StaysInsideLands(vocab, s);
  }

  /** A text that ends inside a character does not, with or without the prefix. */
  lemma TruncatedSteps(vocab: seq<Bytes>, collapse: bool, dummy: bool)
    requires Utf8Tokens(vocab)
    ensures !StaysInside(vocab, Prepared([0xC3], collapse, dummy))
  {
    var s := Prepared([0xC3], collapse, dummy);
    NormaliseOne(0xC3, collapse);
    assert s == (if dummy then MARK else []) + [0xC3];
    LandsAppend(if dummy then MARK else [], [0xC3]);
    StaysInsideLands(vocab, s);
  }

  lemma NormaliseOne(b: Byte, collapse: bool)
    requires b != 32
    ensures Escape(Normalise([b], collapse, true)) == [b]
  {
    assert [b][1..] == [];
  }

  // ----- the round trip -----

  /** The normalised buffer: dummy prefix, then the text with its spaces escaped. */
  function Prepared(text: Bytes, collapse: bool, dummy: bool): Bytes {
    (if dummy then MARK else []) + Escape(Normalise(text, collapse, true))
  }

  /** vg_tokenizer_decode_sequence: a leading space that comes from U+2581 in the first token is dropped. */
  function DecodeAll(vocab: seq<Bytes>, ids: seq<Id>): Bytes {
    var out := Texts(vocab, ids);
    if |out| > 0 && out[0] == 32 && |ids| > 0 && ids[0] < |vocab| && MARK <= vocab[ids[0]] then out[1..] else out
  }

  lemma {:induction false} EscapeCovered(s: Bytes, vocab: seq<Bytes>)
    requires Plain(s) && Covered(s, vocab) && MARK in vocab
    ensures CharsIn(Escape(s), vocab)
    decreases |s|
  {
    if s != [] {
      var n := CharLength(s[0]);
      var c, rest := s[..n], s[n..];
      assert c + rest == s;
      EscapeChar(c, rest);
      EscapeCovered(rest, vocab);
      PrefixChar(if c[0] == 32 then MARK else c, Escape(rest));
    }
  }

  lemma {:induction false} NoCollapse(text: Bytes, prev: bool)
    ensures Normalise(text, false, prev) == text
  {
    if text != [] {
      NoCollapse(text[1..], text[0] == 32);
    }
  }

  lemma {:induction false} CollapsedStart(text: Bytes)
    ensures Normalise(text, true, true) == [] || Normalise(text, true, true)[0] != 32
  {
    if text != [] && text[0] == 32 {
      CollapsedStart(text[1..]);
    }
  }

  /** The first token of a text that starts with U+2581 starts with it too. */
  lemma FirstToken(vocab: seq<Bytes>, s: Bytes)
    requires CharsIn(s, vocab) && Utf8Tokens(vocab) && MARK <= s
    ensures var ids := Greedy(vocab, s); |ids| > 0 && ids[0] < |vocab| && MARK <= vocab[ids[0]]
  {
    assert s[0] == 0xE2;
    TakesToken(vocab, s, Advance(vocab, s));
  }

  lemma EscapeStart(n: Bytes)
    ensures |n| > 0 && n[0] == 32 ==> MARK <= Escape(n)
  {
  }

  /** What a stretch comes back as, when it comes first. */
  function FirstShown(text: Bytes, collapse: bool, dummy: bool): Bytes {
    var n := Normalise(text, collapse, true);
    if !dummy && |n| > 0 && n[0] == 32 then n[1..] else n
  }

  /** What a stretch comes back as, when something comes before it. */
  function LaterShown(text: Bytes, collapse: bool, dummy: bool): Bytes {
    (if dummy then [32] else []) + Normalise(text, collapse, true)
  }

  /** The tokens of one stretch decode to its normalised text, the prefix as a space. */
  lemma StretchTexts(vocab: seq<Bytes>, text: Bytes, collapse: bool, dummy: bool)
    requires Plain(text) && Covered(text, vocab) && MARK in vocab && Utf8Tokens(vocab)
    ensures CharsIn(Prepared(text, collapse, dummy), vocab)
    ensures Texts(vocab, Greedy(vocab, Prepared(text, collapse, dummy))) == LaterShown(text, collapse, dummy)
  {
    var n, s := Normalise(text, collapse, true), Prepared(text, collapse, dummy);
    NormaliseKeeps(text, vocab, collapse, true);
    UnescapeEscape(n);
    EscapeCovered(n, vocab);
    if dummy {
      UnescapeChar(MARK, Escape(n));
      PrefixChar(MARK, Escape(n));
    } else {
      EmptyAppends(Escape(n));
      EmptyAppends(n);
    }
    GreedyDecodes(vocab, s);
  }

  // ----- the loops -----

  method NormaliseText(text: Bytes, collapse: bool, dummy: bool) returns (norm: Bytes)
    ensures norm == Prepared(text, collapse, dummy)
  {
    norm := if dummy then MARK else [];
    var prev := true;
    for i := 0 to |text|
      invariant norm + Escape(Normalise(text[i..], collapse, prev)) == Prepared(text, collapse, dummy)
    {
      assert text[i..][1..] == text[i + 1..];
      if text[i] == 32 && collapse && prev {
      } else {
        prev := text[i] == 32;
        EscapeMore(text[i], Normalise(text[i + 1..], collapse, prev));
        AppendAssociates(norm, if prev then MARK else [text[i]], Escape(Normalise(text[i + 1..], collapse, prev)));
        norm := norm + if prev then MARK else [text[i]];
      }
    }
    assert text[|text|..] == [];
    EmptyAppends(norm);
  }

  lemma EscapeMore(b: Byte, rest: Bytes)
    ensures Escape([b] + rest) == (if b == 32 then MARK else [b]) + Escape(rest)
  {
    assert ([b] + rest)[1..] == rest;
  }

  /** The search at one position: every length from the first character's up, the last match kept. */
  method MatchLongest(vocab: seq<Bytes>, ix: Index<Bytes>, hash: imap<Bytes, nat>, s: Bytes)
    returns (id: int, length: nat)
    requires ix.Holds(vocab, hash) && |vocab| < ix.slot.Length && |s| > 0
    ensures length == Longest(vocab, s, Reach(s)) && (if length == 0 then id == -1 else id == First(vocab, s[..length]))
  {
    id, length := -1, 0;
    var n := CharLength(s[0]);
    assert n > 0 ==> Longest(vocab, s, Least(n - 1, |s|)) == 0;
    while n <= |s| && n < 512
      invariant CharLength(s[0]) <= n && (n > Least(512, |s| + 1) ==> n == CharLength(s[0]))
      invariant length == Longest(vocab, s, Least(n - 1, Reach(s)))
      invariant if length == 0 then id == -1 else id == First(vocab, s[..length])
    {
      var found, v := ix.Find(vocab, hash, s[..n]);
      if found {
        id, length := v, n;
      }
      n := n + 1;
    }
  }

  /** One turn of the greedy loop, fallback included. */
  method OneToken(vocab: seq<Bytes>, ix: Index<Bytes>, hash: imap<Bytes, nat>, s: Bytes) returns (id: Id, length: nat)
    requires ix.Holds(vocab, hash) && |vocab| < ix.slot.Length && s != [] && StaysInside(vocab, s)
    ensures id == IdAt(vocab, s) && length == Advance(vocab, s) && StaysInside(vocab, s[length..])
  {
    var m, l := MatchLongest(vocab, ix, hash, s);
    if m < 0 {
      return 0, CharLength(s[0]);
    }
    return m, l;
  }

  /** The greedy loop, on every text on which it stays inside the buffer. */
  method EncodeText(vocab: seq<Bytes>, ix: Index<Bytes>, hash: imap<Bytes, nat>, norm: Bytes) returns (ids: seq<Id>)
    requires ix.Holds(vocab, hash) && |vocab| < ix.slot.Length && StaysInside(vocab, norm)
    ensures ids == Greedy(vocab, norm)
  {
    ids := [];
    var s := 0;
    while s < |norm|
      invariant s <= |norm| && StaysInside(vocab, norm[s..]) && ids + Greedy(vocab, norm[s..]) == Greedy(vocab, norm)
      decreases |norm| - s
    {
      var rest := norm[s..];
      var id, length := OneToken(vocab, ix, hash, rest);
      assert rest[length..] == norm[s + length..];
      AppendAssociates(ids, [id], Greedy(vocab, rest[length..]));
      ids := ids + [id];
      s := s + length;
    }
    assert norm[s..] == [];
    EmptyAppends(ids);
  }

  method DecodeToken(text: Bytes) returns (out: Bytes)
    ensures out == Unescape(text)
  {
    out := [];
    var s := 0;
    while s < |text|
      invariant s <= |text| && out + Unescape(text[s..]) == Unescape(text)
      decreases |text| - s
    {
      var rest := text[s..];
      assert rest[Step(rest)..] == text[s + Step(rest)..];
      AppendAssociates(out, if Step(rest) == 3 then [32] else [rest[0]], Unescape(rest[Step(rest)..]));
      out := out + if Step(rest) == 3 then [32] else [rest[0]];
      s := s + Step(rest);
    }
    assert text[s..] == [];
    EmptyAppends(out);
  }

  method DecodeSequence(vocab: seq<Bytes>, ids: seq<Id>) returns (out: Bytes)
    ensures out == DecodeAll(vocab, ids)
  {
    out := [];
    for i := 0 to |ids|
      invariant out + Texts(vocab, ids[i..]) == Texts(vocab, ids)
    {
      assert ids[i..][1..] == ids[i + 1..];
      var piece: Bytes := [];
      if ids[i] < |vocab| {
        piece := DecodeToken(vocab[ids[i]]);
      }
      AppendAssociates(out, piece, Texts(vocab, ids[i + 1..]));
      out := out + piece;
    }
    assert ids[|ids|..] == [];
    EmptyAppends(out);
    if |out| > 0 && out[0] == 32 && |ids| > 0 && ids[0] < |vocab| && MARK <= vocab[ids[0]] {
      out := out[1..];
    }
  }
}
