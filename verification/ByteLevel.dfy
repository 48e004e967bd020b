/** Byte-level encoding and decoding in src/tokenizer.c, and their round trip: control tokens matched
    whole, the text between them split into words, each word merged and looked up. */
module ByteLevel {
  import opened Bpe
  import opened ByteMap
  import opened ControlTokens
  import opened PreTokenizer
  import opened TokenIndex

  // ----- what encoding means -----

  /** find_token_n with the fallback of emit_word. */
  function TokenOf(vocab: seq<Bytes>, piece: Bytes): Id {
    if First(vocab, piece) < |vocab| then First(vocab, piece) else 0
  }

  function IdsOf(vocab: seq<Bytes>, ps: seq<Bytes>): (ids: seq<Id>)
    ensures |ids| == |ps|
  {
    if ps == [] then [] else [TokenOf(vocab, ps[0])] + IdsOf(vocab, ps[1..])
  }

  function Mapped(word: Bytes): (ps: seq<Bytes>)
    ensures |ps| == |word| && forall i :: 0 <= i < |word| ==> ps[i] == Forward(word[i])
  {
    seq(|word|, i requires 0 <= i < |word| => Forward(word[i]))
  }

  function WordIds(vocab: seq<Bytes>, rules: seq<Pair>, word: Bytes): seq<Id> {
    IdsOf(vocab, Apply(rules, Mapped(word)))
  }

  /** vg_tokenizer_encode_body on the text from p on. */
  function BodyIds(vocab: seq<Bytes>, rules: seq<Pair>, text: Bytes, p: nat): seq<Id>
    requires p <= |text|
    decreases |text| - p
  {
    if p == |text| then []
    else WordIds(vocab, rules, text[p..WordEnd(text, p)]) + BodyIds(vocab, rules, text, WordEnd(text, p))
  }

  function WordsIds(vocab: seq<Bytes>, rules: seq<Pair>, ws: seq<Bytes>): seq<Id> {
    if ws == [] then [] else WordIds(vocab, rules, ws[0]) + WordsIds(vocab, rules, ws[1..])
  }

  /** The body's ids are those of its words, in order. */
  lemma {:induction false} BodyIsWords(vocab: seq<Bytes>, rules: seq<Pair>, text: Bytes, p: nat)
    requires p <= |text|
    ensures BodyIds(vocab, rules, text, p) == WordsIds(vocab, rules, Words(text, p))
    decreases |text| - p
  {
    if p < |text| {
      assert Words(text, p)[1..] == Words(text, WordEnd(text, p));
      BodyIsWords(vocab, rules, text, WordEnd(text, p));
    }
  }

  /** encode_body as the table that encode_impl draws on. */
  ghost function BodyTable(vocab: seq<Bytes>, rules: seq<Pair>): (body: Bodies)
    ensures Total(body)
  {
    imap text: Bytes {:trigger BodyIds(vocab, rules, text, 0)} :: BodyIds(vocab, rules, text, 0)
  }

  /** vg_tokenizer_encode_impl. */
  ghost function Encode(vocab: seq<Bytes>, rules: seq<Pair>, added: seq<Id>, text: Bytes): seq<Id> {
    AllIds(BodyTable(vocab, rules), CutsOf(vocab, added, text, 0, 0))
  }

  // ----- what decoding means -----

  function DecodeId(vocab: seq<Bytes>, id: Id): Bytes {
    if id < |vocab| then Decode(vocab[id]) else []
  }

  /** vg_tokenizer_decode_sequence for a byte-level vocabulary. */
  function DecodeIds(vocab: seq<Bytes>, ids: seq<Id>): Bytes {
    if ids == [] then [] else DecodeId(vocab, ids[0]) + DecodeIds(vocab, ids[1..])
  }

  // ----- the round trip -----

  /** Every byte's character and every rule's result is a token. */
  ghost predicate Complete(vocab: seq<Bytes>, rules: seq<Pair>) {
    (forall b: Byte :: b > 0 ==> Forward(b) in vocab) && ResultsIn(rules, vocab)
  }

  ghost predicate AsciiControls(vocab: seq<Bytes>, added: seq<Id>) {
    forall i :: 0 <= i < |added| && added[i] < |vocab| ==> Ascii(vocab[added[i]])
  }

  lemma {:induction false} DecodeAppend(vocab: seq<Bytes>, a: seq<Id>, b: seq<Id>)
    ensures DecodeIds(vocab, a + b) == DecodeIds(vocab, a) + DecodeIds(vocab, b)
  {
    if a == [] {
      EmptyAppends(b);
      EmptyAppends(DecodeIds(vocab, b));
    } else {
      assert (a + b)[1..] == a[1..] + b;
      DecodeAppend(vocab, a[1..], b);
      AppendAssociates(DecodeId(vocab, a[0]), DecodeIds(vocab, a[1..]), DecodeIds(vocab, b));
    }
  }

  /** Pieces that are tokens decode to the stretches they stand for. */
  lemma {:induction false} PiecesRoundTrip(vocab: seq<Bytes>, ps: seq<Bytes>, segs: seq<Bytes>)
    requires AllIn(ps, vocab) && Stretches(ps, segs)
    ensures DecodeIds(vocab, IdsOf(vocab, ps)) == Concat(segs)
  {
    if ps != [] {
      FirstMisses(vocab, ps[0]);
      DecodeForwardAll(segs[0]);
      assert IdsOf(vocab, ps)[1..] == IdsOf(vocab, ps[1..]);
      PiecesRoundTrip(vocab, ps[1..], segs[1..]);
    }
  }

  function Singles(word: Bytes): (segs: seq<Bytes>)
    ensures |segs| == |word| && forall i :: 0 <= i < |word| ==> segs[i] == [word[i]]
  {
    seq(|word|, i requires 0 <= i < |word| => [word[i]])
  }

  lemma {:induction false} SinglesAreWord(word: Bytes)
    ensures Concat(Singles(word)) == word
  {
    if word != [] {
      assert Singles(word)[1..] == Singles(word[1..]);
      SinglesAreWord(word[1..]);
    }
  }

  lemma OneByteStretch(b: Byte)
    ensures ForwardAll([b]) == Forward(b)
  {
    assert [b][1..] == [];
  }

  lemma WordRoundTrip(vocab: seq<Bytes>, rules: seq<Pair>, word: Bytes)
    requires Complete(vocab, rules) && NulFree(word)
    ensures DecodeIds(vocab, WordIds(vocab, rules, word)) == word
  {
    forall i | 0 <= i < |word| ensures Mapped(word)[i] == ForwardAll(Singles(word)[i]) && Mapped(word)[i] in vocab {
      OneByteStretch(word[i]);
      assert word[i] in word;
    }
    ApplyStaysIn(rules, Mapped(word), vocab);
    var segs := ApplyStretches(rules, Mapped(word), Singles(word));
    PiecesRoundTrip(vocab, Apply(rules, Mapped(word)), segs);
    SinglesAreWord(word);
  }

  lemma {:induction false} BodyRoundTrip(vocab: seq<Bytes>, rules: seq<Pair>, text: Bytes, p: nat)
    requires Complete(vocab, rules) && NulFree(text) && p <= |text|
    ensures DecodeIds(vocab, BodyIds(vocab, rules, text, p)) == text[p..]
    decreases |text| - p
  {
    if p < |text| {
      var e := WordEnd(text, p);
      CutNulFree(text, p, e);
      WordRoundTrip(vocab, rules, text[p..e]);
      BodyRoundTrip(vocab, rules, text, e);
      DecodeAppend(vocab, WordIds(vocab, rules, text[p..e]), BodyIds(vocab, rules, text, e));
      CutJoins(text, p, e);
    } else {
      assert text[p..] == [];
    }
  }

  /** Stretches without NUL, and control tokens that are ASCII. */
  ghost predicate Decodable(vocab: seq<Bytes>, c: Cuts) {
    match c
    case End(last) => NulFree(last)
    case Cut(before, id, rest) => NulFree(before) && id < |vocab| && Ascii(vocab[id]) && Decodable(vocab, rest)
  }

  lemma {:induction false} CutsDecodable(vocab: seq<Bytes>, added: seq<Id>, text: Bytes, seg: nat, p: nat)
    requires seg <= p <= |text| && NulFree(text) && AsciiControls(vocab, added)
    ensures Decodable(vocab, CutsOf(vocab, added, text, seg, p))
    decreases |text| - p
  {
    CutNulFree(text, seg, p);
    if p < |text| {
      match Control(vocab, added, text, p, |added|)
      case Hit(id, length) =>
        CutsDecodable(vocab, added, text, p + length, p + length);
        ControlFits(vocab, added, text, p, |added|);
      case Miss => CutsDecodable(vocab, added, text, seg, p + 1);
    }
  }

  lemma StretchRoundTrip(vocab: seq<Bytes>, rules: seq<Pair>, text: Bytes)
    requires Complete(vocab, rules) && NulFree(text)
    ensures DecodeIds(vocab, Flushed(BodyTable(vocab, rules), text)) == text
  {
    if text != [] {
      BodyRoundTrip(vocab, rules, text, 0);
      assert text[0..] == text;
    }
  }

  lemma ControlRoundTrip(vocab: seq<Bytes>, id: Id)
    requires id < |vocab| && Ascii(vocab[id])
    ensures DecodeIds(vocab, [id]) == vocab[id]
  {
    DecodeAscii(vocab[id]);
    OneId(vocab, id);
  }

  lemma OneId(vocab: seq<Bytes>, id: Id)
    ensures DecodeIds(vocab, [id]) == DecodeId(vocab, id)
  {
    assert [id][1..] == [];
    EmptyAppends(DecodeId(vocab, id));
  }

  lemma {:induction false} AllRoundTrip(vocab: seq<Bytes>, rules: seq<Pair>, c: Cuts)
    requires Complete(vocab, rules) && Decodable(vocab, c)
    ensures DecodeIds(vocab, AllIds(BodyTable(vocab, rules), c)) == AllText(vocab, c)
  {
    var body := BodyTable(vocab, rules);
    match c
    case End(last) => StretchRoundTrip(vocab, rules, last);
    case Cut(before, id, rest) =>
      StretchRoundTrip(vocab, rules, before);
      ControlRoundTrip(vocab, id);
      AllRoundTrip(vocab, rules, rest);
      DecodeAppend(vocab, Flushed(body, before), [id] + AllIds(body, rest));
      DecodeAppend(vocab, [id], AllIds(body, rest));
  }

  /** Decoding what was encoded gives the text back, for every NUL-free byte string. */
  lemma RoundTrip(vocab: seq<Bytes>, rules: seq<Pair>, added: seq<Id>, text: Bytes)
    requires Complete(vocab, rules) && AsciiControls(vocab, added) && NulFree(text)
    ensures DecodeIds(vocab, Encode(vocab, rules, added, text)) == text
  {
    CutsDecodable(vocab, added, text, 0, 0);
    AllRoundTrip(vocab, rules, CutsOf(vocab, added, text, 0, 0));
    CutsAreText(vocab, added, text, 0, 0);
    assert text[0..] == text;
  }
}
