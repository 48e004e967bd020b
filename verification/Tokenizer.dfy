/** The byte-level tokenizer object of src/tokenizer.c: its loops over text, words and ids. */
module Tokenizer {
  import opened Bpe
  import opened ByteLevel
  import opened ByteMap
  import opened ControlTokens
  import opened PreTokenizer
  import opened TokenIndex

  // ----- how many ids a text gives -----

  lemma {:induction false} BodyIsShort(vocab: seq<Bytes>, rules: seq<Pair>, text: Bytes, p: nat)
    requires p <= |text|
    ensures |BodyIds(vocab, rules, text, p)| <= |text| - p
    decreases |text| - p
  {
    if p < |text| {
      var e := WordEnd(text, p);
      ApplyKeepsText(rules, Mapped(text[p..e]));
      BodyIsShort(vocab, rules, text, e);
    }
  }

  lemma {:induction false} AllIsShort(vocab: seq<Bytes>, rules: seq<Pair>, c: Cuts)
    requires Nonempty(vocab, c)
    ensures |AllIds(BodyTable(vocab, rules), c)| <= |AllText(vocab, c)|
  {
    match c
    case End(last) => BodyIsShort(vocab, rules, last, 0);
    case Cut(before, id, rest) =>
      BodyIsShort(vocab, rules, before, 0);
      AllIsShort(vocab, rules, rest);
  }

  /** A text never has more ids than bytes. */
  lemma EncodeIsShort(vocab: seq<Bytes>, rules: seq<Pair>, added: seq<Id>, text: Bytes)
    ensures |Encode(vocab, rules, added, text)| <= |text|
  {
    CutsNonempty(vocab, added, text, 0, 0);
    AllIsShort(vocab, rules, CutsOf(vocab, added, text, 0, 0));
    CutsAreText(vocab, added, text, 0, 0);
  }

  // ----- the output buffer -----

  /** The buffer holds as many of the ids as fit. */
  ghost predicate Written(buffer: seq<Id>, out: seq<Id>) {
    if |out| <= |buffer| then buffer[..|out|] == out else out[..|buffer|] == buffer
  }

  lemma WrittenMore(buffer: seq<Id>, out: seq<Id>, id: Id)
    requires Written(buffer, out)
    ensures Written(if |out| < |buffer| then buffer[|out| := id] else buffer, out + [id])
  {
  }

  class ByteTokenizer {
    const vocab: seq<Bytes>
    const rules: seq<Pair>
    const added: seq<Id>
    const tokenHash: imap<Bytes, nat>
    const pairHash: imap<Pair, nat>
    const vocabIx: Index<Bytes>
    const mergeIx: Index<Pair>

    ghost predicate Valid()
      reads vocabIx, vocabIx.slot, mergeIx, mergeIx.slot
    {
      vocabIx.Holds(vocab, tokenHash) && |vocab| < vocabIx.slot.Length &&
      mergeIx.Holds(rules, pairHash) && |rules| < mergeIx.slot.Length &&
      (forall v :: 0 <= v < |vocab| ==> NulFree(vocab[v])) && RulesFit(rules)
    }

    /** The end of vg_tokenizer_load: both indexes built over what was parsed. */
    constructor (vocab: seq<Bytes>, rules: seq<Pair>, added: seq<Id>, tokenHash: imap<Bytes, nat>,
                 pairHash: imap<Pair, nat>)
      requires TotalHash(tokenHash) && TotalHash(pairHash)
      requires (forall v :: 0 <= v < |vocab| ==> NulFree(vocab[v])) && RulesFit(rules)
      ensures Valid() && this.vocab == vocab && this.rules == rules && this.added == added
    {
      this.vocab, this.rules, this.added, this.tokenHash, this.pairHash := vocab, rules, added, tokenHash, pairHash;
      var v := BuildIndex(vocab, tokenHash);
      var m := BuildIndex(rules, pairHash);
      vocabIx, mergeIx := v, m;
    }

    /** find_token_n with emit_word's fallback. */
    method FindToken(piece: Bytes) returns (id: Id)
      requires Valid()
      ensures id == TokenOf(vocab, piece)
    {
      var found, v := vocabIx.Find(vocab, tokenHash, piece);
      FirstMisses(vocab, piece);
      id := if found then v else 0;
    }

    method Put(ids: array<Id>, n: nat, id: Id, ghost out: seq<Id>)
      requires n == |out| && Written(ids[..], out)
      modifies ids
      ensures Written(ids[..], out + [id])
    {
      WrittenMore(ids[..], out, id);
      ghost var was := ids[..];
      if n < ids.Length {
        ids[n] := id;
        assert ids[..] == was[n := id];
      }
    }

    /** emit_word. */
    method EmitWord(w: BpeWord, ids: array<Id>, n: nat, ghost out: seq<Id>) returns (m: nat)
      requires Valid() && w.Valid() && ids != vocabIx.slot && ids != mergeIx.slot
      requires n == |out| && Written(ids[..], out)
      modifies ids
      ensures m == |out| + |IdsOf(vocab, w.Pieces())| && Written(ids[..], out + IdsOf(vocab, w.Pieces()))
    {
      m := n;
      ghost var ps, sofar := w.Pieces(), out;
      EmptyAppends(out);
      for i := 0 to |w.off|
        invariant Valid() && m == |sofar| && Written(ids[..], sofar) && IdsOut(vocab, out, ps, i, sofar)
      {
        var id := FindToken(w.bytes[w.off[i]..w.off[i] + w.len[i]]);
        IdsOutMore(vocab, out, ps, i, sofar, id);
        Put(ids, m, id, sofar);
        m, sofar := m + 1, sofar + [id];
      }
      assert ps[..|ps|] == ps;
    }

    /** The forward-mapped pieces of one word, the leading space apart. */
    method PushWord(text: Bytes, p: nat, start: nat, e: nat) returns (w: BpeWord)
      requires p < |text| && start == RunStart(text, p) && e == WordEnd(text, p)
      ensures fresh(w) && w.Valid() && w.Pieces() == Mapped(text[p..e])
    {
      w := new BpeWord();
      ghost var word := text[p..e];
      LeadingSpace(text, p, start, e);
      if start > p {
        ForwardNulFree(32);
        w.Push(Forward(32));
      }
      for k := start - p to e - p
        invariant fresh(w) && w.Valid() && PushedUpto(w.Pieces(), word, k)
      {
        ForwardNulFree(text[p + k]);
        PushedMore(w.Pieces(), word, k, text[p + k]);
        w.Push(Forward(text[p + k]));
      }
      assert Mapped(word)[..|word|] == Mapped(word);
    }

    /** vg_tokenizer_encode_body for a byte-level vocabulary. */
    method EncodeBody(text: Bytes, ids: array<Id>, n: nat, ghost out: seq<Id>) returns (m: nat)
      requires Valid() && NulFree(text) && ids != vocabIx.slot && ids != mergeIx.slot
      requires n == |out| && Written(ids[..], out)
      modifies ids
      ensures m == |out| + |BodyIds(vocab, rules, text, 0)| && Written(ids[..], out + BodyIds(vocab, rules, text, 0))
    {
      m := n;
      var p := 0;
      ghost var sofar := out;
      while p < |text|
        invariant p <= |text| && Valid() && m == |sofar| && Written(ids[..], sofar)
        invariant sofar + BodyIds(vocab, rules, text, p) == out + BodyIds(vocab, rules, text, 0)
        decreases |text| - p
      {
        var start, e := NextWord(text, p);
        var w := PushWord(text, p, start, e);
        var r := ApplyWord(w, rules, mergeIx, pairHash);
        m := EmitWord(r, ids, m, sofar);
        ghost var word := WordIds(vocab, rules, text[p..e]);
        AppendAssociates(sofar, word, BodyIds(vocab, rules, text, e));
        sofar := sofar + word;
        p := e;
      }
      EmptyAppends(sofar);
    }

    /** What the loop keeps: the ids so far are in the buffer, and the rest is still to come. */
    ghost predicate Going(body: Bodies, buffer: seq<Id>, text: Bytes, seg: nat, p: nat, n: nat, sofar: seq<Id>,
                          all: seq<Id>)
      requires Total(body)
    {
      n == |sofar| && Written(buffer, sofar) && Pending(body, vocab, added, text, seg, p, sofar, all)
    }

    /** flush_segment. */
    method Flush(text: Bytes, ids: array<Id>, n: nat, ghost body: Bodies, ghost sofar: seq<Id>) returns (n': nat)
      requires Valid() && NulFree(text) && ids != vocabIx.slot && ids != mergeIx.slot
      requires body == BodyTable(vocab, rules) && n == |sofar| && Written(ids[..], sofar)
      modifies ids
      ensures Valid() && n' == |sofar| + |Flushed(body, text)|
      ensures Written(ids[..], sofar + Flushed(body, text))
    {
      if text == [] {
        EmptyAppends(sofar);
        return n;
      }
      n' := EncodeBody(text, ids, n, sofar);
    }

    /** The pending stretch, then the control token found at p. */
    method EncodeToControl(text: Bytes, seg: nat, p: nat, m: Match, ids: array<Id>, n: nat, ghost body: Bodies,
                           ghost sofar: seq<Id>, ghost all: seq<Id>)
      returns (p': nat, n': nat, ghost sofar': seq<Id>)
      requires Valid() && NulFree(text) && ids != vocabIx.slot && ids != mergeIx.slot && body == BodyTable(vocab, rules)
      requires Going(body, ids[..], text, seg, p, n, sofar, all) && p < |text|
      requires m == Control(vocab, added, text, p, |added|) && m.Hit?
      modifies ids
      ensures Valid() && Going(body, ids[..], text, p', p', n', sofar', all) && p' == p + m.length
    {
      p', sofar' := p + m.length, Pushed(body, sofar, text[seg..p], m.id);
      PendingHit(body, vocab, added, text, seg, p, m, p', sofar, sofar', all);
      CutNulFree(text, seg, p);
      n' := Flush(text[seg..p], ids, n, body, sofar);
      Put(ids, n', m.id, sofar + Flushed(body, text[seg..p]));
      n' := n' + 1;
    }

    /** vg_tokenizer_encode: control tokens whole, the stretches between them through the body. */
    method EncodeText(text: Bytes, ids: array<Id>) returns (n: nat)
      requires Valid() && NulFree(text) && ids != vocabIx.slot && ids != mergeIx.slot
      modifies ids
      ensures n == |Encode(vocab, rules, added, text)| && Written(ids[..], Encode(vocab, rules, added, text))
    {
      ghost var body := BodyTable(vocab, rules);
      PendingStart(body, vocab, added, text);
      n := EncodeLoop(text, ids, body, Encode(vocab, rules, added, text));
    }

    method EncodeLoop(text: Bytes, ids: array<Id>, ghost body: Bodies, ghost all: seq<Id>) returns (n: nat)
      requires Valid() && NulFree(text) && ids != vocabIx.slot && ids != mergeIx.slot && body == BodyTable(vocab, rules)
      requires Pending(body, vocab, added, text, 0, 0, [], all)
      modifies ids
      ensures n == |all| && Written(ids[..], all)
    {
      n := 0;
      var seg: nat := 0;
      var p: nat := 0;
      ghost var sofar: seq<Id> := [];
      while p < |text|
        invariant Valid() && Going(body, ids[..], text, seg, p, n, sofar, all)
        decreases |text| - p
      {
        var m := MatchAdded(vocab, added, text, p);
        if m.Hit? {
          p, n, sofar := EncodeToControl(text, seg, p, m, ids, n, body, sofar, all);
          seg := p;
        } else {
          var q := p + 1;
          PendingMiss(body, vocab, added, text, seg, p, q, sofar, all);
          p := q;
        }
      }
      CutNulFree(text, seg, p);
      n := Flush(text[seg..p], ids, n, body, sofar);
    }

    /** The growth step of the output: what is written so far moves to a larger buffer. */
    method Grow(buf: array<Byte>, at: nat, cap: nat) returns (nb: array<Byte>)
      requires at <= buf.Length && at <= cap
      ensures fresh(nb) && nb.Length == cap && nb[..at] == buf[..at]
    {
      nb := new Byte[cap](_ => 0);
      for i := 0 to at
        invariant nb[..i] == buf[..i]
      {
        nb[i] := buf[i];
      }
    }

    /** vg_tokenizer_decode without a buffer: how many bytes the token gives. */
    method MeasureId(id: Id) returns (n: nat)
      ensures n == |DecodeId(vocab, id)|
    {
      if id >= |vocab| {
        return 0;
      }
      n := Measure(vocab[id]);
    }

    /** vg_tokenizer_decode into a buffer with room for the token and its terminator. */
    method DecodeInto(id: Id, buf: array<Byte>, at: nat, ghost out: Bytes, ghost piece: Bytes)
      returns (at': nat, ghost out': Bytes)
      requires piece == DecodeId(vocab, id) && at == |out| && at + |piece| < buf.Length && buf[..at] == out
      modifies buf
      ensures out' == out + piece && at' == |out'| < buf.Length && buf[..at'] == out'
    {
      out' := out + piece;
      if id >= |vocab| {
        buf[at] := 0;
        EmptyAppends(out);
        return at, out;
      }
      var n := DecodeText(vocab[id], buf, at);
      PieceFollows(buf[..], at, out, piece);
      at' := at + n;
    }

    /** One turn: the token measured, room made for it, and decoded in place. */
    method DecodeOne(id: Id, buf: array<Byte>, at: nat, ghost out: Bytes)
      returns (buf': array<Byte>, at': nat, ghost out': Bytes)
      requires at == |out| < buf.Length && buf[..at] == out
      modifies buf
      ensures (buf' == buf || fresh(buf')) && at' == |out'| < buf'.Length && buf'[..at'] == out'
      ensures out' == out + DecodeId(vocab, id)
    {
      buf' := buf;
      var need := MeasureId(id);
      if at + need + 1 >= buf.Length {
        buf' := Grow(buf, at, (at + need + 1) * 2);
      }
      at', out' := DecodeInto(id, buf', at, out, DecodeId(vocab, id));
    }

    /** vg_tokenizer_decode_sequence for a byte-level vocabulary: one growing buffer, never too small. */
    method DecodeSequence(ids: seq<Id>) returns (text: Bytes)
      ensures text == DecodeIds(vocab, ids)
    {
      var buf := new Byte[64 + 8 * |ids|](_ => 0);
      var at: nat := 0;
      ghost var out: Bytes := [];
      for i := 0 to |ids|
        invariant fresh(buf) && at == |out| < buf.Length && buf[..at] == out && out == DecodeIds(vocab, ids[..i])
      {
        buf, at, out := DecodeOne(ids[i], buf, at, out);
        assert ids[..i + 1] == ids[..i] + [ids[i]];
        DecodeAppend(vocab, ids[..i], [ids[i]]);
        OneId(vocab, ids[i]);
      }
      assert ids[..|ids|] == ids;
      buf[at] := 0;
      text := buf[..at];
    }

    /** vg_tokenizer_encode_decode: the buffer of four ids a byte and 64 more always suffices, and with a complete
        vocabulary the text comes back whole. */
    method EncodeDecode(text: Bytes) returns (out: Bytes)
      requires Valid() && NulFree(text)
      ensures out == DecodeIds(vocab, Encode(vocab, rules, added, text))
      ensures Complete(vocab, rules) && AsciiControls(vocab, added) ==> out == text
    {
      var ids := new Id[4 * |text| + 64](_ => 0);
      var n := EncodeText(text, ids);
      EncodeIsShort(vocab, rules, added, text);
      assert ids[..n] == Encode(vocab, rules, added, text);
      out := DecodeSequence(ids[..n]);
      if Complete(vocab, rules) && AsciiControls(vocab, added) {
        RoundTrip(vocab, rules, added, text);
      }
    }
  }

  lemma PieceFollows(buffer: Bytes, at: nat, out: Bytes, piece: Bytes)
    requires Terminated(buffer, at, piece) && at == |out| && at + |piece| < |buffer| && buffer[..at] == out
    ensures buffer[..at + |piece|] == out + piece
  {
    assert buffer[..at + |piece|] == buffer[..at] + buffer[at..at + |piece|];
  }

  /** sofar is out and the ids of the first i pieces. */
  ghost predicate IdsOut(vocab: seq<Bytes>, out: seq<Id>, ps: seq<Bytes>, i: nat, sofar: seq<Id>) {
    i <= |ps| && sofar == out + IdsOf(vocab, ps[..i])
  }

  lemma IdsOutMore(vocab: seq<Bytes>, out: seq<Id>, ps: seq<Bytes>, i: nat, sofar: seq<Id>, id: Id)
    requires IdsOut(vocab, out, ps, i, sofar) && i < |ps| && id == TokenOf(vocab, ps[i])
    ensures IdsOut(vocab, out, ps, i + 1, sofar + [id])
  {
    IdsGrow(vocab, ps, i);
    AppendAssociates(out, IdsOf(vocab, ps[..i]), [id]);
  }

  lemma {:induction false} IdsGrow(vocab: seq<Bytes>, ps: seq<Bytes>, i: nat)
    requires i < |ps|
    ensures IdsOf(vocab, ps[..i + 1]) == IdsOf(vocab, ps[..i]) + [TokenOf(vocab, ps[i])]
  {
    if i > 0 {
      assert ps[..i + 1][1..] == ps[1..][..i] && ps[..i][1..] == ps[1..][..i - 1];
      IdsGrow(vocab, ps[1..], i - 1);
    }
  }

  lemma LeadingSpace(text: Bytes, p: nat, start: nat, e: nat)
    requires p < |text| && start == RunStart(text, p) && start <= e <= |text|
    ensures Mapped(text[p..e])[..start - p] == if start > p then [Forward(32)] else []
  {
  }

  ghost predicate PushedUpto(ps: seq<Bytes>, word: Bytes, k: int) {
    0 <= k <= |word| && ps == Mapped(word)[..k]
  }

  lemma PushedMore(ps: seq<Bytes>, word: Bytes, k: nat, b: Byte)
    requires PushedUpto(ps, word, k) && k < |word| && word[k] == b
    ensures PushedUpto(ps + [Forward(b)], word, k + 1)
  {
  }

  lemma ForwardNulFree(b: Byte)
    ensures NulFree(Forward(b))
  {
  }
}
