/** vg_tokenizer_encode_impl over a SentencePiece vocabulary in src/tokenizer.c: what comes back after
    control tokens have cut the text, and exactly when that is the normalised text. */
module SentenceRoundTrip {
  import opened ByteMap
  import opened ControlTokens
  import opened SentencePiece
  import opened TokenIndex

  // ----- what encoding means -----

  ghost function BodyTable(vocab: seq<Bytes>, collapse: bool, dummy: bool): (body: Bodies)
    ensures Total(body)
  {
    imap text: Bytes {:trigger Prepared(text, collapse, dummy)} :: Greedy(vocab, Prepared(text, collapse, dummy))
  }

  /** Without control tokens the body takes the text whole, even an empty one. */
  ghost function Encode(vocab: seq<Bytes>, added: seq<Id>, text: Bytes, collapse: bool, dummy: bool): seq<Id> {
    if added == [] then Greedy(vocab, Prepared(text, collapse, dummy))
    else AllIds(BodyTable(vocab, collapse, dummy), CutsOf(vocab, added, text, 0, 0))
  }

  // ----- what comes back -----

  function Head(c: Cuts): Bytes {
    match c case End(last) => last case Cut(before, _, _) => before
  }

  /** Every non-empty stretch brings its prefix as a space; control tokens come back as they are. */
  function AllShown(vocab: seq<Bytes>, c: Cuts, collapse: bool, dummy: bool): Bytes
    decreases c, 1
  {
    (if Head(c) == [] then [] else LaterShown(Head(c), collapse, dummy)) + AfterHead(vocab, c, collapse, dummy)
  }

  function AfterHead(vocab: seq<Bytes>, c: Cuts, collapse: bool, dummy: bool): Bytes
    decreases c, 0
  {
    match c
    case End(_) => []
    case Cut(_, id, rest) => (if id < |vocab| then vocab[id] else []) + AllShown(vocab, rest, collapse, dummy)
  }

  /** Whole characters without U+2581, each of them a token unless it is a space. */
  ghost predicate Spelled(s: Bytes, vocab: seq<Bytes>) {
    Plain(s) && Covered(s, vocab)
  }

  ghost predicate Fits(vocab: seq<Bytes>, c: Cuts) {
    Spelled(Head(c), vocab) &&
    (c.Cut? ==> c.id < |vocab| && vocab[c.id] != [] && Plain(vocab[c.id]) && Fits(vocab, c.rest))
  }

  lemma CharSpelled(c: Bytes, rest: Bytes, vocab: seq<Bytes>)
    requires OneChar(c) && c[0] != 0 && c != MARK && (c[0] == 32 || c in vocab) && Spelled(rest, vocab)
    ensures Spelled(c + rest, vocab)
  {
    PrefixChar(c, rest);
  }

  lemma CharEnds(s: Bytes, i: nat)
    requires StartsChar(s) && 0 < i < |s| && !Tail(s[i])
    ensures CharLength(s[0]) <= i
  {
  }

  lemma {:induction false} SplitSpelled(s: Bytes, vocab: seq<Bytes>, i: nat, a: Bytes, b: Bytes)
    requires Spelled(s, vocab) && i <= |s| && a == s[..i] && b == s[i..] && (b != [] ==> !Tail(b[0]))
    ensures Spelled(a, vocab) && Spelled(b, vocab)
    decreases |s|
  {
    if i == 0 {
      assert b == s;
    } else {
      var n := CharLength(s[0]);
      var c, rest := s[..n], s[n..];
      if i < |s| {
        CharEnds(s, i);
      }
      SplitSpelled(rest, vocab, i - n, rest[..i - n], b);
      CharSpelled(c, rest[..i - n], vocab);
      assert a == c + rest[..i - n];
    }
  }

  lemma {:induction false} TokenSpelled(v: Bytes, rest: Bytes, vocab: seq<Bytes>)
    requires Utf8(v) && Spelled(v + rest, vocab)
    ensures Plain(v) && Spelled(rest, vocab)
    decreases |v|
  {
    if v == [] {
      EmptyAppends(rest);
    } else {
      var n := CharLength(v[0]);
      DropAppend(v, rest, n);
      assert (v + rest)[0] == v[0];
      TokenSpelled(v[n..], rest, vocab);
    }
  }

  /** A control token starts and ends at the ends of characters, so it leaves whole ones around it. */
  lemma HitSpelled(vocab: seq<Bytes>, text: Bytes, seg: nat, p: nat, id: Id, q: nat)
    requires seg <= p < |text| && Spelled(text[seg..], vocab) && Utf8Tokens(vocab)
    requires id < |vocab| && vocab[id] != [] && vocab[id] <= text[p..] && p + |vocab[id]| == q <= |text|
    ensures Spelled(text[seg..p], vocab) && Plain(vocab[id]) && Spelled(text[q..], vocab)
  {
    var v := vocab[id];
    assert StartsChar(v) && v[0] == text[p..][0] == text[p];
    assert text[p..] == v + text[q..];
    SplitSpelled(text[seg..], vocab, p - seg, text[seg..p], text[p..]);
    TokenSpelled(v, text[q..], vocab);
  }

  lemma {:induction false} CutsFit(vocab: seq<Bytes>, added: seq<Id>, text: Bytes, seg: nat, p: nat)
    requires seg <= p <= |text| && Spelled(text[seg..], vocab) && Utf8Tokens(vocab)
    ensures Fits(vocab, CutsOf(vocab, added, text, seg, p))
    decreases |text| - p
  {
    if p == |text| {
      assert text[seg..p] == text[seg..];
    } else {
      var m := Control(vocab, added, text, p, |added|);
      if m.Miss? {
        CutsFit(vocab, added, text, seg, p + 1);
      } else {
        var q := p + m.length;
        ControlFits(vocab, added, text, p, |added|);
        HitSpelled(vocab, text, seg, p, m.id, q);
        CutsFit(vocab, added, text, q, q);
        CutsAtHit(vocab, added, text, seg, p, m, q);
      }
    }
  }

  // ----- decoding the ids of the cuts -----

  lemma {:induction false} TextsAppend(vocab: seq<Bytes>, a: seq<Id>, b: seq<Id>)
    ensures Texts(vocab, a + b) == Texts(vocab, a) + Texts(vocab, b)
  {
    if a == [] {
      EmptyAppends(b);
      EmptyAppends(Texts(vocab, b));
    } else {
      assert (a + b)[1..] == a[1..] + b;
      TextsAppend(vocab, a[1..], b);
      AppendAssociates(if a[0] < |vocab| then Unescape(vocab[a[0]]) else [], Texts(vocab, a[1..]), Texts(vocab, b));
    }
  }

  lemma {:induction false} UnescapePlain(s: Bytes)
    requires Plain(s)
    ensures Unescape(s) == s
    decreases |s|
  {
    if s != [] {
      var n := CharLength(s[0]);
      var c, rest := s[..n], s[n..];
      assert c + rest == s;
      UnescapePlain(rest);
      UnescapeChar(c, rest);
    }
  }

  lemma ControlTexts(vocab: seq<Bytes>, id: Id)
    requires id < |vocab| && Plain(vocab[id])
    ensures Texts(vocab, [id]) == vocab[id]
  {
    UnescapePlain(vocab[id]);
    assert [id][1..] == [];
    EmptyAppends(vocab[id]);
  }

  function AfterIds(body: Bodies, c: Cuts): seq<Id>
    requires Total(body)
  {
    match c case End(_) => [] case Cut(_, id, rest) => [id] + AllIds(body, rest)
  }

  lemma HeadAndAfter(body: Bodies, c: Cuts)
    requires Total(body)
    ensures AllIds(body, c) == Flushed(body, Head(c)) + AfterIds(body, c)
  {
    EmptyAppends(Flushed(body, Head(c)));
  }

  lemma {:induction false} AfterTexts(vocab: seq<Bytes>, c: Cuts, collapse: bool, dummy: bool, body: Bodies)
    requires Fits(vocab, c) && MARK in vocab && Utf8Tokens(vocab) && body == BodyTable(vocab, collapse, dummy)
    ensures Texts(vocab, AfterIds(body, c)) == AfterHead(vocab, c, collapse, dummy)
    decreases c
  {
    if c.Cut? {
      ControlTexts(vocab, c.id);
      TextsAppend(vocab, [c.id], AllIds(body, c.rest));
      HeadAndAfter(body, c.rest);
      HeadTexts(vocab, c.rest, collapse, dummy, body);
      AfterTexts(vocab, c.rest, collapse, dummy, body);
      TextsAppend(vocab, Flushed(body, Head(c.rest)), AfterIds(body, c.rest));
    }
  }

  lemma HeadTexts(vocab: seq<Bytes>, c: Cuts, collapse: bool, dummy: bool, body: Bodies)
    requires Fits(vocab, c) && MARK in vocab && Utf8Tokens(vocab) && body == BodyTable(vocab, collapse, dummy)
    ensures Texts(vocab, Flushed(body, Head(c))) == if Head(c) == [] then [] else LaterShown(Head(c), collapse, dummy)
  {
    if Head(c) != [] {
      StretchTexts(vocab, Head(c), collapse, dummy);
    }
  }

  // ----- the prefix that is dropped -----

  lemma MarkStart(s: Bytes)
    ensures MARK <= s <==> |s| >= 3 && s[..3] == MARK
  {
  }

  lemma PlainNoMark(s: Bytes)
    requires Plain(s) && s != []
    ensures !(MARK <= s)
  {
    MarkStart(s);
  }

  ghost predicate StartsMarked(text: Bytes, collapse: bool, dummy: bool) {
    dummy || (var n := Normalise(text, collapse, true); |n| > 0 && n[0] == 32)
  }

  /** Its first token shows whether the prepared text starts with U+2581. */
  lemma MarkedToken(vocab: seq<Bytes>, text: Bytes, collapse: bool, dummy: bool)
    requires Spelled(text, vocab) && MARK in vocab && Utf8Tokens(vocab) && StartsMarked(text, collapse, dummy)
    ensures var ids := Greedy(vocab, Prepared(text, collapse, dummy));
            |ids| > 0 && ids[0] < |vocab| && MARK <= vocab[ids[0]]
    ensures |LaterShown(text, collapse, dummy)| > 0 && LaterShown(text, collapse, dummy)[0] == 32
    ensures LaterShown(text, collapse, dummy)[1..] == FirstShown(text, collapse, dummy)
  {
    StretchTexts(vocab, text, collapse, dummy);
    EscapeStart(Normalise(text, collapse, true));
    FirstToken(vocab, Prepared(text, collapse, dummy));
  }

  lemma UnmarkedShown(text: Bytes, collapse: bool, dummy: bool)
    requires !StartsMarked(text, collapse, dummy)
    ensures FirstShown(text, collapse, dummy) == LaterShown(text, collapse, dummy)
    ensures var shown := LaterShown(text, collapse, dummy); shown != [] ==> shown[0] != 32
  {
    EmptyAppends(Normalise(text, collapse, true));
  }

  lemma GreedyNotEmpty(vocab: seq<Bytes>, text: Bytes, collapse: bool)
    requires Greedy(vocab, Prepared(text, collapse, false)) != []
    ensures Normalise(text, collapse, true) != []
  {
  }

  /** The ids of a first stretch, and what follows them: only the first token's own prefix is dropped. */
  lemma DropsPrefix(vocab: seq<Bytes>, text: Bytes, collapse: bool, dummy: bool, ids: seq<Id>, after: seq<Id>)
    requires Spelled(text, vocab) && MARK in vocab && Utf8Tokens(vocab)
    requires ids == Greedy(vocab, Prepared(text, collapse, dummy)) && ids != []
    ensures DecodeAll(vocab, ids + after) == FirstShown(text, collapse, dummy) + Texts(vocab, after)
  {
    StretchTexts(vocab, text, collapse, dummy);
    TextsAppend(vocab, ids, after);
    assert (ids + after)[0] == ids[0];
    if StartsMarked(text, collapse, dummy) {
      MarkedToken(vocab, text, collapse, dummy);
      DropFirst(LaterShown(text, collapse, dummy), Texts(vocab, after));
    } else {
      UnmarkedShown(text, collapse, dummy);
      GreedyNotEmpty(vocab, text, collapse);
      assert LaterShown(text, collapse, dummy) != [];
    }
  }

  lemma DropFirst(a: Bytes, b: Bytes)
    requires a != []
    ensures (a + b)[1..] == a[1..] + b
  {
  }

  /** Ids that start with a control token, or none: nothing is dropped. */
  lemma KeepsControl(vocab: seq<Bytes>, c: Cuts, body: Bodies)
    requires Fits(vocab, c) && Total(body)
    ensures DecodeAll(vocab, AfterIds(body, c)) == Texts(vocab, AfterIds(body, c))
  {
    if c.Cut? {
      PlainNoMark(vocab[c.id]);
    }
  }

  lemma CutsDecoded(vocab: seq<Bytes>, c: Cuts, collapse: bool, dummy: bool, body: Bodies)
    requires Fits(vocab, c) && MARK in vocab && Utf8Tokens(vocab) && body == BodyTable(vocab, collapse, dummy)
    ensures DecodeAll(vocab, AllIds(body, c)) ==
            FirstShown(Head(c), collapse, dummy) + AfterHead(vocab, c, collapse, dummy)
  {
    HeadAndAfter(body, c);
    AfterTexts(vocab, c, collapse, dummy, body);
    if Flushed(body, Head(c)) == [] {
      HeadTexts(vocab, c, collapse, dummy, body);
      KeepsControl(vocab, c, body);
      EmptyAppends(AfterIds(body, c));
      EmptyAppends(AfterHead(vocab, c, collapse, dummy));
    } else {
      DropsPrefix(vocab, Head(c), collapse, dummy, Flushed(body, Head(c)), AfterIds(body, c));
    }
  }

  /** What comes back: the first stretch normalised, less a leading space that no prefix stands for; then every
      control token as it is, and every later non-empty stretch normalised, behind a space if a prefix is added. */
  lemma Decoded(vocab: seq<Bytes>, added: seq<Id>, text: Bytes, collapse: bool, dummy: bool)
    requires Spelled(text, vocab) && MARK in vocab && Utf8Tokens(vocab)
    ensures var c := CutsOf(vocab, added, text, 0, 0);
            DecodeAll(vocab, Encode(vocab, added, text, collapse, dummy)) ==
            FirstShown(Head(c), collapse, dummy) + AfterHead(vocab, c, collapse, dummy)
  {
    var c, ids := CutsOf(vocab, added, text, 0, 0), Greedy(vocab, Prepared(text, collapse, dummy));
    assert text[0..] == text;
    CutsFit(vocab, added, text, 0, 0);
    if added != [] {
      CutsDecoded(vocab, c, collapse, dummy, BodyTable(vocab, collapse, dummy));
    } else {
      NoControl(vocab, added, text, 0);
      EmptyAppends(ids);
      if ids == [] {
        StretchTexts(vocab, text, collapse, dummy);
      } else {
        DropsPrefix(vocab, text, collapse, dummy, ids, []);
      }
    }
  }

  /** Where no control token matches, the text is one stretch. */
  lemma {:induction false} NoControl(vocab: seq<Bytes>, added: seq<Id>, text: Bytes, p: nat)
    requires p <= |text| && forall q :: p <= q < |text| ==> Control(vocab, added, text, q, |added|).Miss?
    ensures CutsOf(vocab, added, text, 0, p) == End(text)
    decreases |text| - p
  {
    if p < |text| {
      NoControl(vocab, added, text, p + 1);
    } else {
      assert text[0..p] == text;
    }
  }

  // ----- the loops -----

  /** The greedy loop stays inside the buffer on every stretch. */
  ghost predicate AllStay(vocab: seq<Bytes>, c: Cuts, collapse: bool, dummy: bool) {
    (Head(c) == [] || StaysInside(vocab, Prepared(Head(c), collapse, dummy))) &&
    (c.Cut? ==> AllStay(vocab, c.rest, collapse, dummy))
  }

  lemma StayAtHit(vocab: seq<Bytes>, added: seq<Id>, text: Bytes, collapse: bool, dummy: bool, seg: nat, p: nat,
                  m: Match, q: nat)
    requires seg <= p < |text| && m == Control(vocab, added, text, p, |added|) && m.Hit? && q == p + m.length
    requires AllStay(vocab, CutsOf(vocab, added, text, seg, p), collapse, dummy)
    ensures text[seg..p] == [] || StaysInside(vocab, Prepared(text[seg..p], collapse, dummy))
    ensures AllStay(vocab, CutsOf(vocab, added, text, q, q), collapse, dummy)
  {
    CutsAtHit(vocab, added, text, seg, p, m, q);
  }

  /** flush_segment. */
  method Flush(vocab: seq<Bytes>, ix: Index<Bytes>, hash: imap<Bytes, nat>, text: Bytes, collapse: bool, dummy: bool)
    returns (ids: seq<Id>)
    requires ix.Holds(vocab, hash) && |vocab| < ix.slot.Length
    requires text == [] || StaysInside(vocab, Prepared(text, collapse, dummy))
    ensures ids == Flushed(BodyTable(vocab, collapse, dummy), text)
  {
    if text == [] {
      return [];
    }
    var norm := NormaliseText(text, collapse, dummy);
    ids := EncodeText(vocab, ix, hash, norm);
  }

  /** The pending stretch, then the control token found at p. */
  method FlushToControl(vocab: seq<Bytes>, ix: Index<Bytes>, hash: imap<Bytes, nat>, added: seq<Id>, text: Bytes,
                        collapse: bool, dummy: bool, seg: nat, p: nat, m: Match, ids: seq<Id>, ghost body: Bodies,
                        ghost all: seq<Id>)
    returns (p': nat, ids': seq<Id>)
    requires ix.Holds(vocab, hash) && |vocab| < ix.slot.Length && body == BodyTable(vocab, collapse, dummy)
    requires Pending(body, vocab, added, text, seg, p, ids, all) && p < |text|
    requires m == Control(vocab, added, text, p, |added|) && m.Hit?
    requires AllStay(vocab, CutsOf(vocab, added, text, seg, p), collapse, dummy)
    ensures Pending(body, vocab, added, text, p', p', ids', all) && p' == p + m.length
    ensures AllStay(vocab, CutsOf(vocab, added, text, p', p'), collapse, dummy)
  {
    p' := p + m.length;
    StayAtHit(vocab, added, text, collapse, dummy, seg, p, m, p');
    var got := Flush(vocab, ix, hash, text[seg..p], collapse, dummy);
    ids' := ids + got + [m.id];
    PendingHit(body, vocab, added, text, seg, p, m, p', ids, ids', all);
  }

  /** vg_tokenizer_encode for a SentencePiece vocabulary. */
  method EncodeCuts(vocab: seq<Bytes>, ix: Index<Bytes>, hash: imap<Bytes, nat>, added: seq<Id>, text: Bytes,
                    collapse: bool, dummy: bool) returns (ids: seq<Id>)
    requires ix.Holds(vocab, hash) && |vocab| < ix.slot.Length
    requires if added == [] then StaysInside(vocab, Prepared(text, collapse, dummy))
             else AllStay(vocab, CutsOf(vocab, added, text, 0, 0), collapse, dummy)
    ensures ids == Encode(vocab, added, text, collapse, dummy)
  {
    if |added| == 0 {
      var norm := NormaliseText(text, collapse, dummy);
      ids := EncodeText(vocab, ix, hash, norm);
      return;
    }
    ghost var body, all := BodyTable(vocab, collapse, dummy), Encode(vocab, added, text, collapse, dummy);
    PendingStart(body, vocab, added, text);
    ids := [];
    var seg: nat := 0;
    var p: nat := 0;
    while p < |text|
      invariant Pending(body, vocab, added, text, seg, p, ids, all)
      invariant AllStay(vocab, CutsOf(vocab, added, text, seg, p), collapse, dummy)
      decreases |text| - p
    {
      var m := MatchAdded(vocab, added, text, p);
      if m.Hit? {
        p, ids := FlushToControl(vocab, ix, hash, added, text, collapse, dummy, seg, p, m, ids, body, all);
        seg := p;
      } else {
        var q := p + 1;
        PendingMiss(body, vocab, added, text, seg, p, q, ids, all);
        p := q;
      }
    }
    var got := Flush(vocab, ix, hash, text[seg..p], collapse, dummy);
    ids := ids + got;
  }

  /** vg_tokenizer_encode_decode on a text of whole characters that the vocabulary spells. */
  method EncodeDecode(vocab: seq<Bytes>, ix: Index<Bytes>, hash: imap<Bytes, nat>, added: seq<Id>, text: Bytes,
                      collapse: bool, dummy: bool) returns (out: Bytes)
    requires ix.Holds(vocab, hash) && |vocab| < ix.slot.Length
    requires Spelled(text, vocab) && MARK in vocab && Utf8Tokens(vocab)
    ensures var c := CutsOf(vocab, added, text, 0, 0);
            out == FirstShown(Head(c), collapse, dummy) + AfterHead(vocab, c, collapse, dummy)
  {
    SpelledStays(vocab, added, text, collapse, dummy);
    Decoded(vocab, added, text, collapse, dummy);
    var ids := EncodeCuts(vocab, ix, hash, added, text, collapse, dummy);
    out := DecodeSequence(vocab, ids);
  }

  lemma StretchStays(vocab: seq<Bytes>, text: Bytes, collapse: bool, dummy: bool)
    requires Spelled(text, vocab) && MARK in vocab && Utf8Tokens(vocab)
    ensures StaysInside(vocab, Prepared(text, collapse, dummy))
  {
    StretchTexts(vocab, text, collapse, dummy);
    CharsAreUtf8(Prepared(text, collapse, dummy), vocab);
    Utf8Stays(vocab, Prepared(text, collapse, dummy));
  }

  lemma {:induction false} CutsStay(vocab: seq<Bytes>, c: Cuts, collapse: bool, dummy: bool)
    requires Fits(vocab, c) && MARK in vocab && Utf8Tokens(vocab)
    ensures AllStay(vocab, c, collapse, dummy)
    decreases c
  {
    StretchStays(vocab, Head(c), collapse, dummy);
    if c.Cut? {
      CutsStay(vocab, c.rest, collapse, dummy);
    }
  }

  /** A text of whole characters never carries the loop past its end. */
  lemma SpelledStays(vocab: seq<Bytes>, added: seq<Id>, text: Bytes, collapse: bool, dummy: bool)
    requires Spelled(text, vocab) && MARK in vocab && Utf8Tokens(vocab)
    ensures StaysInside(vocab, Prepared(text, collapse, dummy))
    ensures AllStay(vocab, CutsOf(vocab, added, text, 0, 0), collapse, dummy)
  {
    assert text[0..] == text;
    StretchStays(vocab, text, collapse, dummy);
    CutsFit(vocab, added, text, 0, 0);
    CutsStay(vocab, CutsOf(vocab, added, text, 0, 0), collapse, dummy);
  }
}
