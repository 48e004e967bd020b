/** Control tokens in src/tokenizer.c, for every kind of vocabulary: where one matches, and what
    vg_tokenizer_encode_impl cuts a text into. */
module ControlTokens {
  import opened ByteMap

  type Id = nat

  // ----- matching -----

  datatype Match = Miss | Hit(id: Id, length: nat)

  /** match_added_token over the first n entries: the longest control token that starts at p, the earliest
      of equally long ones. */
  function Control(vocab: seq<Bytes>, added: seq<Id>, text: Bytes, p: nat, n: nat): (m: Match)
    requires p <= |text| && n <= |added|
    ensures m.Hit? ==> m.id < |vocab| && 0 < m.length == |vocab[m.id]| <= |text| - p
  {
    if n == 0 then Miss
    else
      var m, id := Control(vocab, added, text, p, n - 1), added[n - 1];
      if id < |vocab| && vocab[id] <= text[p..] && |vocab[id]| > (if m.Hit? then m.length else 0)
      then Hit(id, |vocab[id]|) else m
  }

  /** What is matched is a control token, and stands in the text. */
  lemma {:induction false} ControlFits(vocab: seq<Bytes>, added: seq<Id>, text: Bytes, p: nat, n: nat)
    requires p <= |text| && n <= |added|
    ensures var m := Control(vocab, added, text, p, n); m.Hit? ==> m.id in added && vocab[m.id] <= text[p..]
  {
    if n > 0 {
      ControlFits(vocab, added, text, p, n - 1);
    }
  }

  /** No control token at p is longer than the one found. */
  lemma {:induction false} ControlIsLongest(vocab: seq<Bytes>, added: seq<Id>, text: Bytes, p: nat, n: nat, i: nat)
    requires p <= |text| && i < n <= |added| && added[i] < |vocab| && vocab[added[i]] <= text[p..]
    ensures var m := Control(vocab, added, text, p, n); |vocab[added[i]]| <= if m.Hit? then m.length else 0
  {
    if i < n - 1 {
      ControlIsLongest(vocab, added, text, p, n - 1, i);
    }
  }

  /** Entry i is a control token that stands in the text at p. */
  ghost predicate Stands(vocab: seq<Bytes>, added: seq<Id>, text: Bytes, p: nat, i: nat)
    requires p <= |text| && i < |added|
  {
    added[i] < |vocab| && vocab[added[i]] != [] && vocab[added[i]] <= text[p..]
  }

  ghost predicate NoneStands(vocab: seq<Bytes>, added: seq<Id>, text: Bytes, p: nat, n: nat)
    requires p <= |text| && n <= |added|
  {
    forall i :: 0 <= i < n ==> !Stands(vocab, added, text, p, i)
  }

  /** Entry i is the first of the longest control tokens that stand at p. */
  ghost predicate Foremost(vocab: seq<Bytes>, added: seq<Id>, text: Bytes, p: nat, n: nat, i: nat)
    requires p <= |text| && n <= |added|
  {
    i < n && Stands(vocab, added, text, p, i) &&
    (forall j :: 0 <= j < i && Stands(vocab, added, text, p, j) ==> |vocab[added[j]]| < |vocab[added[i]]|) &&
    forall j :: i < j < n && Stands(vocab, added, text, p, j) ==> |vocab[added[j]]| <= |vocab[added[i]]|
  }

  ghost predicate FoundAt(vocab: seq<Bytes>, added: seq<Id>, text: Bytes, p: nat, n: nat, id: Id)
    requires p <= |text| && n <= |added|
  {
    exists i: nat :: Foremost(vocab, added, text, p, n, i) && added[i] == id
  }

  lemma {:induction false} ControlIsForemost(vocab: seq<Bytes>, added: seq<Id>, text: Bytes, p: nat, n: nat)
    requires p <= |text| && n <= |added|
    ensures match Control(vocab, added, text, p, n)
            case Miss => NoneStands(vocab, added, text, p, n)
            case Hit(id, length) => FoundAt(vocab, added, text, p, n, id) && length == |vocab[id]|
  {
    if n > 0 {
      ControlIsForemost(vocab, added, text, p, n - 1);
      var m, id := Control(vocab, added, text, p, n - 1), added[n - 1];
      if m.Miss? {
        assert Stands(vocab, added, text, p, n - 1) ==> Foremost(vocab, added, text, p, n, n - 1);
      } else {
        var i: nat :| Foremost(vocab, added, text, p, n - 1, i) && added[i] == m.id;
        if id < |vocab| && vocab[id] <= text[p..] && |vocab[id]| > m.length {
          assert Foremost(vocab, added, text, p, n, n - 1);
        } else {
          assert Foremost(vocab, added, text, p, n, i);
        }
      }
    }
  }

  // ----- cutting -----

  /** A stretch of ordinary text, and then the end, or a control token and the rest. */
  datatype Cuts = End(last: Bytes) | Cut(before: Bytes, id: Id, rest: Cuts)

  /** seg is where the pending stretch starts. */
  function CutsOf(vocab: seq<Bytes>, added: seq<Id>, text: Bytes, seg: nat, p: nat): Cuts
    requires seg <= p <= |text|
    decreases |text| - p
  {
    if p == |text| then End(text[seg..p])
    else match Control(vocab, added, text, p, |added|)
      case Hit(id, length) => Cut(text[seg..p], id, CutsOf(vocab, added, text, p + length, p + length))
      case Miss => CutsOf(vocab, added, text, seg, p + 1)
  }

  /** The cuts of the text from seg on: every control token is taken at the first place where one stands, and there
      the longest. */
  ghost predicate Leftmost(vocab: seq<Bytes>, added: seq<Id>, text: Bytes, seg: nat, c: Cuts)
    decreases c
  {
    match c
    case End(last) =>
      seg + |last| == |text| && forall q :: seg <= q < |text| ==> NoneStands(vocab, added, text, q, |added|)
    case Cut(before, id, rest) =>
      var p := seg + |before|;
      p < |text| && (forall q :: seg <= q < p ==> NoneStands(vocab, added, text, q, |added|)) &&
      FoundAt(vocab, added, text, p, |added|, id) && id < |vocab| &&
      Leftmost(vocab, added, text, p + |vocab[id]|, rest)
  }

  lemma {:induction false} CutsAreLeftmost(vocab: seq<Bytes>, added: seq<Id>, text: Bytes, seg: nat, p: nat)
    requires seg <= p <= |text| && forall q :: seg <= q < p ==> NoneStands(vocab, added, text, q, |added|)
    ensures Leftmost(vocab, added, text, seg, CutsOf(vocab, added, text, seg, p))
    decreases |text| - p
  {
    if p < |text| {
      ControlIsForemost(vocab, added, text, p, |added|);
      match Control(vocab, added, text, p, |added|)
      case Hit(id, length) => CutsAreLeftmost(vocab, added, text, p + length, p + length);
      case Miss => CutsAreLeftmost(vocab, added, text, seg, p + 1);
    }
  }

  lemma CutsAtHit(vocab: seq<Bytes>, added: seq<Id>, text: Bytes, seg: nat, p: nat, m: Match, q: nat)
    requires seg <= p < |text| && m == Control(vocab, added, text, p, |added|) && m.Hit? && q == p + m.length
    ensures CutsOf(vocab, added, text, seg, p) == Cut(text[seg..p], m.id, CutsOf(vocab, added, text, q, q))
  {
  }

  function AllText(vocab: seq<Bytes>, c: Cuts): Bytes {
    match c
    case End(last) => last
    case Cut(before, id, rest) => before + ((if id < |vocab| then vocab[id] else []) + AllText(vocab, rest))
  }

  lemma ThreeParts(text: Bytes, seg: nat, p: nat, s: Bytes, rest: Bytes)
    requires seg <= p <= |text| && s <= text[p..] && p + |s| <= |text| && rest == text[p + |s|..]
    ensures text[seg..p] + (s + rest) == text[seg..]
  {
    assert text[p..][..|s|] == s;
    assert s + rest == text[p..];
  }

  /** Stretches and control tokens, one after the other, are the text. */
  lemma {:induction false} CutsAreText(vocab: seq<Bytes>, added: seq<Id>, text: Bytes, seg: nat, p: nat)
    requires seg <= p <= |text|
    ensures AllText(vocab, CutsOf(vocab, added, text, seg, p)) == text[seg..]
    decreases |text| - p
  {
    if p < |text| {
      match Control(vocab, added, text, p, |added|)
      case Hit(id, length) =>
        CutsAreText(vocab, added, text, p + length, p + length);
        ControlFits(vocab, added, text, p, |added|);
        ThreeParts(text, seg, p, vocab[id], text[p + length..]);
      case Miss => CutsAreText(vocab, added, text, seg, p + 1);
    }
  }

  /** Control tokens are never empty. */
  ghost predicate Nonempty(vocab: seq<Bytes>, c: Cuts) {
    c.Cut? ==> c.id < |vocab| && |vocab[c.id]| > 0 && Nonempty(vocab, c.rest)
  }

  lemma {:induction false} CutsNonempty(vocab: seq<Bytes>, added: seq<Id>, text: Bytes, seg: nat, p: nat)
    requires seg <= p <= |text|
    ensures Nonempty(vocab, CutsOf(vocab, added, text, seg, p))
    decreases |text| - p
  {
    if p < |text| {
      match Control(vocab, added, text, p, |added|)
      case Hit(id, length) => CutsNonempty(vocab, added, text, p + length, p + length);
      case Miss => CutsNonempty(vocab, added, text, seg, p + 1);
    }
  }

  // ----- the ids -----

  /** What encode_body gives for every stretch: the one step in which the kinds of vocabulary differ. */
  type Bodies = imap<Bytes, seq<Id>>

  ghost predicate Total(body: Bodies) {
    forall t: Bytes :: t in body
  }

  /** flush_segment: an empty stretch gives nothing. */
  function Flushed(body: Bodies, text: Bytes): seq<Id>
    requires Total(body)
  {
    if text == [] then [] else body[text]
  }

  function AllIds(body: Bodies, c: Cuts): seq<Id>
    requires Total(body)
  {
    match c
    case End(last) => Flushed(body, last)
    case Cut(before, id, rest) => Flushed(body, before) + ([id] + AllIds(body, rest))
  }

  /** The ids after an ordinary stretch and a control token. */
  ghost function Pushed(body: Bodies, sofar: seq<Id>, before: Bytes, id: Id): seq<Id>
    requires Total(body)
  {
    sofar + Flushed(body, before) + [id]
  }

  /** What the loop keeps: with sofar out, the turns from p on end in all. */
  ghost predicate Pending(body: Bodies, vocab: seq<Bytes>, added: seq<Id>, text: Bytes, seg: nat, p: nat,
                          sofar: seq<Id>, all: seq<Id>)
    requires Total(body)
  {
    seg <= p <= |text| && EndsIn(body, sofar, CutsOf(vocab, added, text, seg, p), all)
  }

  ghost predicate EndsIn(body: Bodies, sofar: seq<Id>, c: Cuts, all: seq<Id>)
    requires Total(body)
    decreases c
  {
    match c
    case End(last) => sofar + Flushed(body, last) == all
    case Cut(before, id, rest) => EndsIn(body, Pushed(body, sofar, before, id), rest, all)
  }

  /** The turns give the ids of the cuts. */
  lemma {:induction false} EndsInAll(body: Bodies, sofar: seq<Id>, c: Cuts)
    requires Total(body)
    ensures EndsIn(body, sofar, c, sofar + AllIds(body, c))
    decreases c
  {
    match c
    case End(last) =>
    case Cut(before, id, rest) =>
      EndsInAll(body, Pushed(body, sofar, before, id), rest);
      AppendAssociates(sofar, Flushed(body, before), [id] + AllIds(body, rest));
      AppendAssociates(sofar + Flushed(body, before), [id], AllIds(body, rest));
  }

  lemma PendingStart(body: Bodies, vocab: seq<Bytes>, added: seq<Id>, text: Bytes)
    requires Total(body)
    ensures Pending(body, vocab, added, text, 0, 0, [], AllIds(body, CutsOf(vocab, added, text, 0, 0)))
  {
    EndsInAll(body, [], CutsOf(vocab, added, text, 0, 0));
    EmptyAppends(AllIds(body, CutsOf(vocab, added, text, 0, 0)));
  }

  lemma PendingMiss(body: Bodies, vocab: seq<Bytes>, added: seq<Id>, text: Bytes, seg: nat, p: nat, q: nat,
                    sofar: seq<Id>, all: seq<Id>)
    requires Total(body) && Pending(body, vocab, added, text, seg, p, sofar, all) && p < |text| && q == p + 1
    requires Control(vocab, added, text, p, |added|).Miss?
    ensures Pending(body, vocab, added, text, seg, q, sofar, all)
    ensures CutsOf(vocab, added, text, seg, q) == CutsOf(vocab, added, text, seg, p)
  {
  }

  lemma PendingHit(body: Bodies, vocab: seq<Bytes>, added: seq<Id>, text: Bytes, seg: nat, p: nat, m: Match, q: nat,
                   sofar: seq<Id>, sofar': seq<Id>, all: seq<Id>)
    requires Total(body) && Pending(body, vocab, added, text, seg, p, sofar, all) && p < |text|
    requires m == Control(vocab, added, text, p, |added|) && m.Hit? && q == p + m.length
    requires sofar' == Pushed(body, sofar, text[seg..p], m.id)
    ensures Pending(body, vocab, added, text, q, q, sofar', all)
  {
  }

  // ----- the loop -----

  /** match_added_token. */
  method MatchAdded(vocab: seq<Bytes>, added: seq<Id>, text: Bytes, p: nat) returns (m: Match)
    requires p <= |text|
    ensures m == Control(vocab, added, text, p, |added|)
  {
    m := Miss;
    for i := 0 to |added|
      invariant m == Control(vocab, added, text, p, i)
    {
      var id := added[i];
      if id < |vocab| && |vocab[id]| > (if m.Hit? then m.length else 0) && vocab[id] <= text[p..] {
        m := Hit(id, |vocab[id]|);
      }
    }
  }
}
