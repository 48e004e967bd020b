/** The pre-tokenizer of src/tokenizer.c: text falls into words of an optional leading space and one
    maximal run of letters, digits, other symbols or white space. */
module PreTokenizer {
  import opened Bpe
  import opened ByteMap

  predicate Space(c: Byte) {
    c == 32 || 9 <= c <= 13
  }

  predicate Digit(c: Byte) {
    48 <= c <= 57
  }

  /** Bytes from 0x80 on count as letters. */
  predicate Alpha(c: Byte) {
    65 <= c <= 90 || 97 <= c <= 122 || c >= 0x80
  }

  datatype Class = Letters | Digits | Symbols | Blanks

  /** The order of the source's tests. The terminator counts as a symbol here, but no run goes past it. */
  function ClassOf(c: Byte): Class {
    if Alpha(c) then Letters else if Digit(c) then Digits else if !Space(c) then Symbols else Blanks
  }

  /** Where the run of one class from q on ends. */
  function RunEnd(text: Bytes, q: nat, k: Class): (e: nat)
    requires q <= |text|
    ensures q <= e <= |text|
    decreases |text| - q
  {
    if q < |text| && ClassOf(text[q]) == k then RunEnd(text, q + 1, k) else q
  }

  /** The run is of one class and cannot be extended. */
  lemma {:induction false} RunIsMaximal(text: Bytes, q: nat, k: Class)
    requires q <= |text|
    ensures forall i :: q <= i < RunEnd(text, q, k) ==> ClassOf(text[i]) == k
    ensures RunEnd(text, q, k) < |text| ==> ClassOf(text[RunEnd(text, q, k)]) != k
    decreases |text| - q
  {
    if q < |text| && ClassOf(text[q]) == k {
      RunIsMaximal(text, q + 1, k);
    }
  }

  function RunStart(text: Bytes, p: nat): (q: nat)
    requires p < |text|
    ensures p <= q <= |text|
  {
    if text[p] == 32 then p + 1 else p
  }

  /** Where the word from p on ends; the space at p belongs to the run after it. */
  function WordEnd(text: Bytes, p: nat): (e: nat)
    requires p < |text|
    ensures p < e <= |text| && RunStart(text, p) <= e
  {
    var q := RunStart(text, p);
    if q < |text| then RunEnd(text, q, ClassOf(text[q])) else q
  }

  function Words(text: Bytes, p: nat): seq<Bytes>
    requires p <= |text|
    decreases |text| - p
  {
    if p == |text| then [] else [text[p..WordEnd(text, p)]] + Words(text, WordEnd(text, p))
  }

  /** The words, one after the other, are the text. */
  lemma {:induction false} WordsAreText(text: Bytes, p: nat)
    requires p <= |text|
    ensures Concat(Words(text, p)) == text[p..]
    decreases |text| - p
  {
    if p < |text| {
      var e := WordEnd(text, p);
      WordsAreText(text, e);
      ConcatOne(text[p..e], Words(text, e));
      CutJoins(text, p, e);
    } else {
      assert text[p..] == [];
    }
  }

  /** One of the words ends i bytes into the text they make up. */
  predicate EndsAt(ws: seq<Bytes>, i: nat) {
    ws != [] && (|ws[0]| == i || (|ws[0]| < i && EndsAt(ws[1..], i - |ws[0]|)))
  }

  /** Both bytes are letters, or digits, or white space, or none of these. */
  predicate OneKind(a: Byte, b: Byte) {
    (65 <= a <= 90 || 97 <= a <= 122 || 128 <= a <==> 65 <= b <= 90 || 97 <= b <= 122 || 128 <= b) &&
    (48 <= a <= 57 <==> 48 <= b <= 57) &&
    (a == 32 || 9 <= a <= 13 <==> b == 32 || 9 <= b <= 13)
  }

  /** Two kinds of bytes meet at i, and it is not the first space behind other bytes, which leads the run behind it. */
  predicate Apart(text: Bytes, i: nat)
    requires 0 < i < |text|
  {
    !OneKind(text[i - 1], text[i]) && !(text[i - 1] == 32 && (i == 1 || !OneKind(text[i - 2], 32)))
  }

  lemma KindIsClass(a: Byte, b: Byte)
    ensures OneKind(a, b) <==> ClassOf(a) == ClassOf(b)
  {
  }

  /** The word at p goes on up to the first place where two kinds part. */
  lemma WordIsUnparted(text: Bytes, p: nat, i: nat)
    requires p < i < |text| && i <= WordEnd(text, p) && (p > 0 ==> Apart(text, p))
    ensures Apart(text, i) <==> i == WordEnd(text, p)
  {
    var q := RunStart(text, p);
    RunIsMaximal(text, q, ClassOf(text[q]));
    KindIsClass(text[i - 1], text[i]);
    if i > 1 {
      KindIsClass(text[i - 2], 32);
    }
  }

  /** A word ends between two bytes if and only if they are of different kinds and the first is not a leading space. */
  lemma {:induction false} WordsEndWhere(text: Bytes, p: nat, i: nat)
    requires p < i < |text| && (p > 0 ==> Apart(text, p))
    ensures EndsAt(Words(text, p), i - p) <==> Apart(text, i)
    decreases |text| - p
  {
    var e := WordEnd(text, p);
    assert Words(text, p)[1..] == Words(text, e) && |Words(text, p)[0]| == e - p;
    if i <= e {
      WordIsUnparted(text, p, i);
    } else {
      WordIsUnparted(text, p, e);
      WordsEndWhere(text, e, i);
    }
  }

  lemma ConcatOne(a: Bytes, rest: seq<Bytes>)
    ensures Concat([a] + rest) == a + Concat(rest)
  {
    assert ([a] + rest)[1..] == rest;
  }

  lemma CutJoins<T>(s: seq<T>, p: nat, e: nat)
    requires p <= e <= |s|
    ensures s[p..e] + s[e..] == s[p..]
  {
  }

  lemma CutNulFree(s: Bytes, p: nat, e: nat)
    requires p <= e <= |s| && NulFree(s)
    ensures NulFree(s[p..e])
  {
  }

  /** The four runs of the word loop, up to the end of the word at p. */
  method NextWord(text: Bytes, p: nat) returns (start: nat, e: nat)
    requires p < |text| && NulFree(text)
    ensures start == RunStart(text, p) && e == WordEnd(text, p)
  {
    start := if text[p] == 32 then p + 1 else p;
    e := start;
    var c := Peek(text, e);
    if Alpha(c) {
      while Alpha(Peek(text, e))
        invariant start <= e <= |text| && RunEnd(text, e, Letters) == RunEnd(text, start, Letters)
        decreases |text| - e
      {
        e := e + 1;
      }
    } else if Digit(c) {
      while Digit(Peek(text, e))
        invariant start <= e <= |text| && RunEnd(text, e, Digits) == RunEnd(text, start, Digits)
        decreases |text| - e
      {
        e := e + 1;
      }
    } else if !Space(c) {
      while Peek(text, e) != 0 && !Space(Peek(text, e)) && !Alpha(Peek(text, e)) && !Digit(Peek(text, e))
        invariant start <= e <= |text| && RunEnd(text, e, Symbols) == RunEnd(text, start, Symbols)
        decreases |text| - e
      {
        e := e + 1;
      }
    } else {
      while Space(Peek(text, e))
        invariant start <= e <= |text| && RunEnd(text, e, Blanks) == RunEnd(text, start, Blanks)
        decreases |text| - e
      {
        e := e + 1;
      }
    }
  }
}
