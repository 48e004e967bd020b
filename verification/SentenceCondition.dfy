/** Exactly when the SentencePiece round trip of src/tokenizer.c gives the normalised text. Nothing but spaces can
    differ, so the condition counts spaces: between two bytes that are not spaces, as many must come back as
    normalising keeps. */
module SentenceCondition {
  import opened ByteMap
  import opened ControlTokens
  import opened SentencePiece
  import opened SentenceRoundTrip

  // ----- counting spaces -----

  /** A byte, and for a space whether it comes back and whether normalising the whole text keeps it. */
  datatype Mark = Mark(b: Byte, shown: bool, kept: bool)

  function If(out: bool, b: Byte): Bytes {
    if b != 32 || out then [b] else []
  }

  function ShownOf(ms: seq<Mark>): Bytes {
    if ms == [] then [] else If(ms[0].shown, ms[0].b) + ShownOf(ms[1..])
  }

  function KeptOf(ms: seq<Mark>): Bytes {
    if ms == [] then [] else If(ms[0].kept, ms[0].b) + KeptOf(ms[1..])
  }

  function One(b: bool): int {
    if b then 1 else 0
  }

  /** owed: how many kept spaces have not come back since the last byte that is not a space. */
  ghost predicate Even(ms: seq<Mark>, owed: int) {
    if ms == [] then owed == 0
    else if ms[0].b == 32 then Even(ms[1..], owed + One(ms[0].kept) - One(ms[0].shown))
    else owed == 0 && Even(ms[1..], 0)
  }

  /** s behind n spaces. */
  function Padded(n: nat, s: Bytes): Bytes {
    if n == 0 then s else [32] + Padded(n - 1, s)
  }

  lemma CancelByte(c: Byte, s: Bytes, t: Bytes)
    ensures [c] + s == [c] + t <==> s == t
  {
    assert ([c] + s)[1..] == s && ([c] + t)[1..] == t;
  }

  lemma {:induction false} MoreSpaces(n: nat, out: bool, s: Bytes, n': nat)
    requires n' == n + One(out)
    ensures Padded(n, If(out, 32) + s) == Padded(n', s)
  {
    if n == 0 {
      EmptyAppends(s);
    } else {
      MoreSpaces(n - 1, out, s, n' - 1);
    }
  }

  /** Different numbers of spaces, and then the end. */
  lemma {:induction false} SpacesEqual(a: nat, b: nat)
    ensures Padded(a, []) == Padded(b, []) <==> a == b
  {
    if a > 0 && b > 0 {
      SpacesEqual(a - 1, b - 1);
      CancelByte(32, Padded(a - 1, []), Padded(b - 1, []));
    }
  }

  /** Different numbers of spaces, and then a byte that is no space. */
  lemma {:induction false} SpacesApart(a: nat, b: nat, c: Byte, s: Bytes, t: Bytes)
    requires c != 32
    ensures Padded(a, [c] + s) == Padded(b, [c] + t) <==> a == b && s == t
  {
    if a > 0 && b > 0 {
      SpacesApart(a - 1, b - 1, c, s, t);
      CancelByte(32, Padded(a - 1, [c] + s), Padded(b - 1, [c] + t));
    } else {
      CancelByte(c, s, t);
      assert a > 0 ==> Padded(a, [c] + s)[0] == 32;
      assert b > 0 ==> Padded(b, [c] + t)[0] == 32;
      assert ([c] + s)[0] == c && ([c] + t)[0] == c;
    }
  }

  /** Even counts are the same as equal texts. */
  lemma {:induction false} EvenIsEqual(ms: seq<Mark>, a: nat, b: nat)
    ensures Padded(a, KeptOf(ms)) == Padded(b, ShownOf(ms)) <==> Even(ms, a - b)
  {
    if ms == [] {
      SpacesEqual(a, b);
    } else {
      var m, kept, shown := ms[0], KeptOf(ms[1..]), ShownOf(ms[1..]);
      if m.b == 32 {
        var a', b' := a + One(m.kept), b + One(m.shown);
        MoreSpaces(a, m.kept, kept, a');
        MoreSpaces(b, m.shown, shown, b');
        EvenIsEqual(ms[1..], a', b');
      } else {
        SpacesApart(a, b, m.b, kept, shown);
        EvenIsEqual(ms[1..], 0, 0);
      }
    }
  }

  lemma {:induction false} MarksAppend(a: seq<Mark>, b: seq<Mark>)
    ensures ShownOf(a + b) == ShownOf(a) + ShownOf(b) && KeptOf(a + b) == KeptOf(a) + KeptOf(b)
  {
    if a == [] {
      EmptyAppends(b);
      EmptyAppends(ShownOf(b));
      EmptyAppends(KeptOf(b));
    } else {
      assert (a + b)[0] == a[0] && (a + b)[1..] == a[1..] + b;
      MarksAppend(a[1..], b);
      AppendAssociates(If(a[0].shown, a[0].b), ShownOf(a[1..]), ShownOf(b));
      AppendAssociates(If(a[0].kept, a[0].b), KeptOf(a[1..]), KeptOf(b));
    }
  }

  // ----- the marks of a text -----

  /** prev: whether a space is what normalising the whole text has just seen; own: the same for the stretch. A
      control token comes back whole. */
  function Bytewise(t: Bytes, prev: bool, own: bool, whole: bool): seq<Mark> {
    if t == [] then []
    else [Mark(t[0], whole || !own, !prev)] + Bytewise(t[1..], t[0] == 32, t[0] == 32, whole)
  }

  function Prefix(t: Bytes, dummy: bool): seq<Mark> {
    if dummy && t != [] then [Mark(32, true, false)] else []
  }

  function EndsSpace(t: Bytes, prev: bool): bool {
    if t == [] then prev else t[|t| - 1] == 32
  }

  function AllMarks(vocab: seq<Bytes>, c: Cuts, dummy: bool, prev: bool): seq<Mark>
    decreases c, 1
  {
    Prefix(Head(c), dummy) +
    (Bytewise(Head(c), prev, true, false) + AfterMarks(vocab, c, dummy, EndsSpace(Head(c), prev)))
  }

  /** The marks of what follows the first stretch. */
  function AfterMarks(vocab: seq<Bytes>, c: Cuts, dummy: bool, prev: bool): seq<Mark>
    decreases c, 0
  {
    match c
    case End(_) => []
    case Cut(_, id, rest) =>
      var v := if id < |vocab| then vocab[id] else [];
      Bytewise(v, prev, prev, true) + AllMarks(vocab, rest, dummy, EndsSpace(v, prev))
  }

  lemma {:induction false} BytewiseTexts(t: Bytes, prev: bool, own: bool, whole: bool)
    ensures KeptOf(Bytewise(t, prev, own, whole)) == Normalise(t, true, prev)
    ensures ShownOf(Bytewise(t, prev, own, whole)) == if whole then t else Normalise(t, true, own)
  {
    if t != [] {
      var ms, sp := Bytewise(t, prev, own, whole), t[0] == 32;
      assert ms[1..] == Bytewise(t[1..], sp, sp, whole);
      BytewiseTexts(t[1..], sp, sp, whole);
      EmptyAppends(Normalise(t[1..], true, sp));
      assert [t[0]] + t[1..] == t;
    }
  }

  /** Normalising goes on where it stopped. */
  lemma {:induction false} NormaliseAppend(a: Bytes, b: Bytes, collapse: bool, prev: bool)
    ensures Normalise(a + b, collapse, prev) ==
            Normalise(a, collapse, prev) + Normalise(b, collapse, EndsSpace(a, prev))
  {
    if a == [] {
      EmptyAppends(b);
      EmptyAppends(Normalise(b, collapse, prev));
    } else {
      var sp := a[0] == 32;
      assert (a + b)[0] == a[0] && (a + b)[1..] == a[1..] + b;
      NormaliseAppend(a[1..], b, collapse, sp);
      assert EndsSpace(a, prev) == EndsSpace(a[1..], sp);
      AppendAssociates([a[0]], Normalise(a[1..], collapse, sp), Normalise(b, collapse, EndsSpace(a, prev)));
    }
  }

  function AfterText(vocab: seq<Bytes>, c: Cuts): Bytes {
    match c case End(_) => [] case Cut(_, id, rest) => (if id < |vocab| then vocab[id] else []) + AllText(vocab, rest)
  }

  lemma TextOfHead(vocab: seq<Bytes>, c: Cuts)
    ensures AllText(vocab, c) == Head(c) + AfterText(vocab, c)
  {
    EmptyAppends(Head(c));
  }

  /** The marks say what comes back and what is kept. */
  lemma {:induction false} AfterMarksTexts(vocab: seq<Bytes>, c: Cuts, dummy: bool, prev: bool)
    ensures ShownOf(AfterMarks(vocab, c, dummy, prev)) == AfterHead(vocab, c, true, dummy)
    ensures KeptOf(AfterMarks(vocab, c, dummy, prev)) == Normalise(AfterText(vocab, c), true, prev)
    decreases c, 0
  {
    if c.Cut? {
      var v := if c.id < |vocab| then vocab[c.id] else [];
      var sp := EndsSpace(v, prev);
      MarksAppend(Bytewise(v, prev, prev, true), AllMarks(vocab, c.rest, dummy, sp));
      BytewiseTexts(v, prev, prev, true);
      AllMarksTexts(vocab, c.rest, dummy, sp);
      NormaliseAppend(v, AllText(vocab, c.rest), true, prev);
    }
  }

  lemma {:induction false} AllMarksTexts(vocab: seq<Bytes>, c: Cuts, dummy: bool, prev: bool)
    ensures ShownOf(AllMarks(vocab, c, dummy, prev)) == AllShown(vocab, c, true, dummy)
    ensures KeptOf(AllMarks(vocab, c, dummy, prev)) == Normalise(AllText(vocab, c), true, prev)
    decreases c, 1
  {
    var t := Head(c);
    var sp := EndsSpace(t, prev);
    var own, after := Bytewise(t, prev, true, false), AfterMarks(vocab, c, dummy, sp);
    AfterMarksTexts(vocab, c, dummy, sp);
    TextOfHead(vocab, c);
    NormaliseAppend(t, AfterText(vocab, c), true, prev);
    BytewiseTexts(t, prev, true, false);
    MarksAppend(own, after);
    MarksAppend(Prefix(t, dummy), own + after);
    PrefixTexts(t, dummy);
    EmptyAppends(KeptOf(own + after));
    AppendAssociates(ShownOf(Prefix(t, dummy)), Normalise(t, true, true), ShownOf(after));
  }

  lemma PrefixTexts(t: Bytes, dummy: bool)
    ensures KeptOf(Prefix(t, dummy)) == [] && ShownOf(Prefix(t, dummy)) == if dummy && t != [] then [32] else []
  {
  }

  // ----- without collapsing -----

  ghost predicate NoStretch(c: Cuts)
    decreases c, 1
  {
    Head(c) == [] && NoLater(c)
  }

  ghost predicate NoLater(c: Cuts)
    decreases c, 0
  {
    c.Cut? ==> NoStretch(c.rest)
  }

  /** Without a prefix everything after the first stretch comes back; with one, every later stretch is longer. */
  lemma {:induction false} AfterKept(vocab: seq<Bytes>, c: Cuts, dummy: bool)
    ensures |AfterHead(vocab, c, false, dummy)| >= |AfterText(vocab, c)|
    ensures AfterHead(vocab, c, false, dummy) == AfterText(vocab, c) <==> !dummy || NoLater(c)
    ensures dummy && !NoLater(c) ==> |AfterHead(vocab, c, false, dummy)| > |AfterText(vocab, c)|
    decreases c, 0
  {
    if c.Cut? {
      AllKept(vocab, c.rest, dummy);
    }
  }

  lemma {:induction false} AllKept(vocab: seq<Bytes>, c: Cuts, dummy: bool)
    ensures |AllShown(vocab, c, false, dummy)| >= |AllText(vocab, c)|
    ensures AllShown(vocab, c, false, dummy) == AllText(vocab, c) <==> !dummy || NoStretch(c)
    ensures dummy && !NoStretch(c) ==> |AllShown(vocab, c, false, dummy)| > |AllText(vocab, c)|
    decreases c, 1
  {
    AfterKept(vocab, c, dummy);
    TextOfHead(vocab, c);
    NoCollapse(Head(c), true);
    EmptyAppends(Head(c));
  }

  // ----- the condition -----

  ghost predicate StartsSpace(t: Bytes) {
    t != [] && t[0] == 32
  }

  /** With collapsing: the spaces after the first stretch are even. Without: no stretch after a control token brings
      a prefix, and the first stretch does not lose a space. */
  ghost predicate Restores(vocab: seq<Bytes>, c: Cuts, collapse: bool, dummy: bool) {
    if collapse then Even(AfterMarks(vocab, c, dummy, EndsSpace(Head(c), true)), 0)
    else if dummy then NoLater(c)
    else !StartsSpace(Head(c))
  }

  lemma CancelFirst(a: Bytes, b: Bytes, c: Bytes)
    ensures a + b == a + c <==> b == c
  {
    assert (a + b)[|a|..] == b && (a + c)[|a|..] == c;
  }

  lemma RestoresCollapsed(vocab: seq<Bytes>, c: Cuts, dummy: bool)
    ensures FirstShown(Head(c), true, dummy) + AfterHead(vocab, c, true, dummy) ==
            Normalise(AllText(vocab, c), true, true)
            <==> Restores(vocab, c, true, dummy)
  {
    var sp := EndsSpace(Head(c), true);
    var ms := AfterMarks(vocab, c, dummy, sp);
    CollapsedStart(Head(c));
    TextOfHead(vocab, c);
    NormaliseAppend(Head(c), AfterText(vocab, c), true, true);
    AfterMarksTexts(vocab, c, dummy, sp);
    EvenIsEqual(ms, 0, 0);
    CancelFirst(Normalise(Head(c), true, true), KeptOf(ms), ShownOf(ms));
  }

  lemma RestoresPlainly(vocab: seq<Bytes>, c: Cuts, dummy: bool)
    ensures FirstShown(Head(c), false, dummy) + AfterHead(vocab, c, false, dummy) == AllText(vocab, c)
            <==> Restores(vocab, c, false, dummy)
  {
    NoCollapse(Head(c), true);
    TextOfHead(vocab, c);
    AfterKept(vocab, c, dummy);
    CancelFirst(Head(c), AfterHead(vocab, c, false, dummy), AfterText(vocab, c));
  }

  /** The round trip gives the normalised text if and only if the cuts restore it. */
  lemma RoundTrip(vocab: seq<Bytes>, added: seq<Id>, text: Bytes, collapse: bool, dummy: bool)
    requires Spelled(text, vocab) && MARK in vocab && Utf8Tokens(vocab)
    ensures DecodeAll(vocab, Encode(vocab, added, text, collapse, dummy)) == Normalise(text, collapse, true) <==>
            Restores(vocab, CutsOf(vocab, added, text, 0, 0), collapse, dummy)
  {
    var c := CutsOf(vocab, added, text, 0, 0);
    Decoded(vocab, added, text, collapse, dummy);
    CutsAreText(vocab, added, text, 0, 0);
    assert text[0..] == text;
    if collapse {
      RestoresCollapsed(vocab, c, dummy);
    } else {
      NoCollapse(text, true);
      RestoresPlainly(vocab, c, dummy);
    }
  }

  // ----- control tokens without spaces -----

  ghost predicate NoSpace(t: Bytes) {
    t != [] && 32 !in t
  }

  /** No control token that was matched holds a space. */
  ghost predicate SolidControls(vocab: seq<Bytes>, c: Cuts) {
    c.Cut? ==> c.id < |vocab| && NoSpace(vocab[c.id]) && SolidControls(vocab, c.rest)
  }

  /** Every stretch after a control token is empty, or starts with a space exactly when a prefix is added. */
  ghost predicate LaterStart(c: Cuts, dummy: bool) {
    c.Cut? ==> (Head(c.rest) == [] || (StartsSpace(Head(c.rest)) <==> dummy)) && LaterStart(c.rest, dummy)
  }

  ghost predicate StartsSolid(ms: seq<Mark>) {
    ms == [] || ms[0].b != 32
  }

  lemma EvenSolid(ms: seq<Mark>, owed: int)
    requires StartsSolid(ms)
    ensures Even(ms, owed) <==> owed == 0 && Even(ms, 0)
  {
  }

  lemma EvenOne(m: Mark, ms: seq<Mark>, owed: int)
    ensures Even([m] + ms, owed) <==>
            if m.b == 32 then Even(ms, owed + One(m.kept) - One(m.shown)) else owed == 0 && Even(ms, 0)
  {
    assert ([m] + ms)[1..] == ms;
  }

  lemma BytewiseOne(t: Bytes, prev: bool, own: bool, whole: bool, ms: seq<Mark>, owed: int)
    requires t != []
    ensures var sp := t[0] == 32;
            Even(Bytewise(t, prev, own, whole) + ms, owed) <==>
            if sp then Even(Bytewise(t[1..], sp, sp, whole) + ms, owed + One(!prev) - One(whole || !own))
            else owed == 0 && Even(Bytewise(t[1..], sp, sp, whole) + ms, 0)
  {
    var sp := t[0] == 32;
    var m := Mark(t[0], whole || !own, !prev);
    AppendAssociates([m], Bytewise(t[1..], sp, sp, whole), ms);
    EvenOne(m, Bytewise(t[1..], sp, sp, whole) + ms, owed);
  }

  lemma {:induction false} EvenControl(v: Bytes, prev: bool, own: bool, ms: seq<Mark>)
    requires 32 !in v
    ensures Even(Bytewise(v, prev, own, true) + ms, 0) <==> Even(ms, 0)
  {
    if v == [] {
      EmptyAppends(ms);
    } else {
      assert v[0] in v && forall b :: b in v[1..] ==> b in v;
      BytewiseOne(v, prev, own, true, ms, 0);
      EvenControl(v[1..], false, false, ms);
    }
  }

  /** Where the stretch and the whole text see the same, they keep the same. */
  lemma {:induction false} EvenAgrees(t: Bytes, prev: bool, ms: seq<Mark>, owed: int)
    requires StartsSolid(ms)
    ensures Even(Bytewise(t, prev, prev, false) + ms, owed) <==> owed == 0 && Even(ms, 0)
  {
    if t == [] {
      EmptyAppends(ms);
      EvenSolid(ms, owed);
    } else {
      BytewiseOne(t, prev, prev, false, ms, owed);
      EvenAgrees(t[1..], t[0] == 32, ms, if t[0] == 32 then owed else 0);
    }
  }

  lemma EvenStretch(t: Bytes, dummy: bool, ms: seq<Mark>)
    requires StartsSolid(ms)
    ensures Even(Prefix(t, dummy) + (Bytewise(t, false, true, false) + ms), 0) <==>
            (t == [] || (StartsSpace(t) <==> dummy)) && Even(ms, 0)
  {
    var own := Bytewise(t, false, true, false) + ms;
    if t == [] {
      EmptyAppends(ms);
    } else {
      EvenOne(Mark(32, true, false), own, 0);
      EmptyAppends(own);
      var owed := if dummy then -1 else 0;
      BytewiseOne(t, false, true, false, ms, owed);
      EvenAgrees(t[1..], t[0] == 32, ms, if t[0] == 32 then owed + 1 else 0);
    }
  }

  lemma AfterStartsSolid(vocab: seq<Bytes>, c: Cuts, dummy: bool, prev: bool)
    requires SolidControls(vocab, c)
    ensures StartsSolid(AfterMarks(vocab, c, dummy, prev))
  {
    if c.Cut? {
      assert vocab[c.id][0] in vocab[c.id];
    }
  }

  lemma {:induction false} EvenLater(vocab: seq<Bytes>, c: Cuts, dummy: bool, prev: bool)
    requires SolidControls(vocab, c)
    ensures Even(AfterMarks(vocab, c, dummy, prev), 0) <==> LaterStart(c, dummy)
    decreases c
  {
    if c.Cut? {
      var v, t := vocab[c.id], Head(c.rest);
      assert v[|v| - 1] in v && !EndsSpace(v, prev);
      var after := AfterMarks(vocab, c.rest, dummy, EndsSpace(t, false));
      EvenControl(v, prev, prev, AllMarks(vocab, c.rest, dummy, false));
      AfterStartsSolid(vocab, c.rest, dummy, EndsSpace(t, false));
      EvenStretch(t, dummy, after);
      EvenLater(vocab, c.rest, dummy, EndsSpace(t, false));
    }
  }

  /** With collapsing and control tokens without spaces: the round trip gives the normalised text if and only if every
      later non-empty stretch starts with a space, where a prefix is added, and does not, where none is. */
  lemma RoundTripSolid(vocab: seq<Bytes>, added: seq<Id>, text: Bytes, dummy: bool)
    requires Spelled(text, vocab) && MARK in vocab && Utf8Tokens(vocab)
    requires SolidControls(vocab, CutsOf(vocab, added, text, 0, 0))
    ensures DecodeAll(vocab, Encode(vocab, added, text, true, dummy)) == Normalise(text, true, true) <==>
            LaterStart(CutsOf(vocab, added, text, 0, 0), dummy)
  {
    var c := CutsOf(vocab, added, text, 0, 0);
    RoundTrip(vocab, added, text, true, dummy);
    EvenLater(vocab, c, dummy, EndsSpace(Head(c), true));
  }

  /** Without a control token in the text: exactly when a prefix is added, or spaces are collapsed, or the text does
      not start with a space. */
  lemma RoundTripPlain(vocab: seq<Bytes>, added: seq<Id>, text: Bytes, collapse: bool, dummy: bool)
    requires Spelled(text, vocab) && MARK in vocab && Utf8Tokens(vocab)
    requires forall p :: 0 <= p < |text| ==> Control(vocab, added, text, p, |added|).Miss?
    ensures DecodeAll(vocab, Encode(vocab, added, text, collapse, dummy)) == Normalise(text, collapse, true) <==>
            dummy || collapse || !StartsSpace(text)
  {
    RoundTrip(vocab, added, text, collapse, dummy);
    NoControl(vocab, added, text, 0);
  }

  // ----- a text that gains a space -----

  /** "<s>", U+2581, "a", "<", "s", ">", the first a control token. */
  const SMALL: seq<Bytes> := [[0x3C, 0x73, 0x3E], MARK, [0x61], [0x3C], [0x73], [0x3E]]

  lemma SmallTokens()
    ensures MARK in SMALL && Utf8Tokens(SMALL)
  {
    assert SMALL[1] == MARK;
    forall i | 0 <= i < |SMALL| ensures Utf8(SMALL[i]) {
      if i == 0 {
        assert SMALL[0] == [0x3C, 0x73, 0x3E];
        AsciiWord(SMALL[0]);
      } else {
        assert OneChar(SMALL[i]);
        OneCharIsUtf8(SMALL[i]);
      }
    }
  }

  lemma {:induction false} AsciiWord(s: Bytes)
    requires forall i :: 0 <= i < |s| ==> 0 < s[i] < 0x80
    ensures Utf8(s) && Plain(s)
  {
    if s != [] {
      AsciiWord(s[1..]);
      assert s[..1] == [s[0]];
    }
  }

  lemma {:induction false} AsciiCovered(s: Bytes, vocab: seq<Bytes>)
    requires forall i :: 0 <= i < |s| ==> 0 < s[i] < 0x80 && [s[i]] in vocab
    ensures Covered(s, vocab)
  {
    if s != [] {
      AsciiCovered(s[1..], vocab);
      assert s[..1] == [s[0]];
    }
  }

  lemma SmallText(text: Bytes)
    requires text == [0x3C, 0x73, 0x3E, 0x61]
    ensures Spelled(text, SMALL) && Normalise(text, true, true) == text
  {
    assert SMALL[3] == [0x3C] && SMALL[4] == [0x73] && SMALL[5] == [0x3E] && SMALL[2] == [0x61];
    AsciiWord(text);
    AsciiCovered(text, SMALL);
    NoSpaces(text, true);
  }

  lemma {:induction false} NoSpaces(s: Bytes, prev: bool)
    requires 32 !in s
    ensures Normalise(s, true, prev) == s
  {
    if s != [] {
      assert s[0] in s && forall b :: b in s[1..] ==> b in s;
      NoSpaces(s[1..], false);
    }
  }

  /** The control token, then one stretch. */
  lemma SmallCuts(text: Bytes)
    requires text == [0x3C, 0x73, 0x3E, 0x61]
    ensures CutsOf(SMALL, [0], text, 0, 0) == Cut([], 0, End([0x61]))
  {
    assert text[0..] == text && SMALL[0] == text[..3];
    assert Control(SMALL, [0], text, 0, 0) == Miss;
    assert Control(SMALL, [0], text, 0, 1) == Hit(0, 3);
    assert |text[3..]| == 1 && !(SMALL[0] <= text[3..]);
    assert Control(SMALL, [0], text, 3, 0) == Miss;
    assert Control(SMALL, [0], text, 3, 1) == Miss;
    assert CutsOf(SMALL, [0], text, 3, 4) == End([0x61]);
    assert CutsOf(SMALL, [0], text, 3, 3) == End([0x61]);
  }

  /** "<s>a" comes back as "<s> a". */
  lemma GainsSpace()
    ensures Spelled([0x3C, 0x73, 0x3E, 0x61], SMALL) && MARK in SMALL && Utf8Tokens(SMALL)
    ensures var text: Bytes := [0x3C, 0x73, 0x3E, 0x61];
            DecodeAll(SMALL, Encode(SMALL, [0], text, true, true)) == [0x3C, 0x73, 0x3E, 32, 0x61] &&
            Normalise(text, true, true) == text
  {
    var text: Bytes := [0x3C, 0x73, 0x3E, 0x61];
    SmallTokens();
    SmallText(text);
    SmallCuts(text);
    Decoded(SMALL, [0], text, true, true);
    NoSpaces([0x61], true);
    NoSpaces([], true);
    SmallShown();
  }

  lemma SmallShown()
    ensures var c := Cut([], 0, End([0x61]));
            FirstShown(Head(c), true, true) + AfterHead(SMALL, c, true, true) == [0x3C, 0x73, 0x3E, 32, 0x61]
  {
    NoSpaces([0x61], true);
    var last := End([0x61]);
    EmptyAppends(LaterShown([0x61], true, true));
    assert LaterShown([0x61], true, true) == [32, 0x61];
    assert AllShown(SMALL, last, true, true) == [32, 0x61];
    assert SMALL[0] == [0x3C, 0x73, 0x3E];
  }
}
