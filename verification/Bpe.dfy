/** Byte-pair merging in src/tokenizer.c: rules in rank order, applied leftmost lowest rank first. */
module Bpe {
  import opened ByteMap
  import opened TokenIndex

  type Pair = (Bytes, Bytes)

  function Concat(ps: seq<Bytes>): Bytes {
    if ps == [] then [] else ps[0] + Concat(ps[1..])
  }

  /** The rank of the first rule for a pair, or the number of rules if there is none. */
  function Rank(rules: seq<Pair>, ps: seq<Bytes>, i: nat): (r: nat)
    requires i + 1 < |ps|
    ensures r <= |rules|
  {
    First(rules, (ps[i], ps[i + 1]))
  }

  function MergeAt(ps: seq<Bytes>, i: nat): (r: seq<Bytes>)
    requires i + 1 < |ps|
    ensures |r| == |ps| - 1
  {
    ps[..i] + [ps[i] + ps[i + 1]] + ps[i + 2..]
  }

  /** The best pair among the first n: |ps| if none of them has a rule. */
  function BestUpto(rules: seq<Pair>, ps: seq<Bytes>, n: nat): (best: nat)
    requires n == 0 || n < |ps|
    ensures best == |ps| || best < n
  {
    if n == 0 then |ps|
    else
      var best, r := BestUpto(rules, ps, n - 1), Rank(rules, ps, n - 1);
      if r < |rules| && (best == |ps| || r < Rank(rules, ps, best)) then n - 1 else best
  }

  function BestPair(rules: seq<Pair>, ps: seq<Bytes>): nat {
    BestUpto(rules, ps, if ps == [] then 0 else |ps| - 1)
  }

  /** No adjacent pair among the first n has a rule. */
  ghost predicate NoRule(rules: seq<Pair>, ps: seq<Bytes>, n: nat) {
    forall i :: 0 <= i < n && i + 1 < |ps| ==> Rank(rules, ps, i) == |rules|
  }

  /** best is the leftmost of the lowest-ranked pairs among the first n. */
  ghost predicate Leftmost(rules: seq<Pair>, ps: seq<Bytes>, n: nat, best: nat) {
    best < n && best + 1 < |ps| && Rank(rules, ps, best) < |rules| &&
    (forall i :: 0 <= i < best ==> Rank(rules, ps, best) < Rank(rules, ps, i)) &&
    forall i :: best < i < n && i + 1 < |ps| ==> Rank(rules, ps, best) <= Rank(rules, ps, i)
  }

  lemma {:induction false} BestIsLeftmost(rules: seq<Pair>, ps: seq<Bytes>, n: nat)
    requires n == 0 || n < |ps|
    ensures if BestUpto(rules, ps, n) == |ps|
            then NoRule(rules, ps, n) else Leftmost(rules, ps, n, BestUpto(rules, ps, n))
  {
    if n > 0 {
      BestIsLeftmost(rules, ps, n - 1);
    }
  }

  /** bpe_word_apply on the list of pieces. */
  function Apply(rules: seq<Pair>, ps: seq<Bytes>): seq<Bytes>
    decreases |ps|
  {
    var best := BestPair(rules, ps);
    if best + 1 < |ps| then Apply(rules, MergeAt(ps, best)) else ps
  }

  /** The leftmost of the lowest-ranked adjacent pairs is joined. */
  ghost predicate Joined(rules: seq<Pair>, ps: seq<Bytes>, qs: seq<Bytes>) {
    exists i :: Leftmost(rules, ps, |ps|, i) && qs == MergeAt(ps, i)
  }

  lemma BestJoins(rules: seq<Pair>, ps: seq<Bytes>)
    ensures if BestPair(rules, ps) + 1 < |ps| then Joined(rules, ps, MergeAt(ps, BestPair(rules, ps)))
            else NoRule(rules, ps, |ps|)
  {
    if ps != [] {
      BestIsLeftmost(rules, ps, |ps| - 1);
      assert BestPair(rules, ps) < |ps| ==> Leftmost(rules, ps, |ps|, BestPair(rules, ps));
    }
  }

  /** Rounds of merging, the last of which finds nothing to join. */
  ghost predicate Rounds(rules: seq<Pair>, run: seq<seq<Bytes>>)
    requires run != []
  {
    if |run| == 1 then NoRule(rules, run[0], |run[0]|)
    else Joined(rules, run[0], run[1]) && Rounds(rules, run[1..])
  }

  /** The merged word is what those rounds end in. */
  lemma {:induction false} ApplyIsRounds(rules: seq<Pair>, ps: seq<Bytes>) returns (run: seq<seq<Bytes>>)
    ensures run != [] && run[0] == ps && run[|run| - 1] == Apply(rules, ps) && Rounds(rules, run)
    decreases |ps|
  {
    var best := BestPair(rules, ps);
    BestJoins(rules, ps);
    if best + 1 < |ps| {
      var rest := ApplyIsRounds(rules, MergeAt(ps, best));
      run := [ps] + rest;
      assert run[1..] == rest;
    } else {
      run := [ps];
    }
  }

  // ----- what merging keeps -----

  lemma {:induction false} MergeKeepsText(ps: seq<Bytes>, i: nat)
    requires i + 1 < |ps|
    ensures Concat(MergeAt(ps, i)) == Concat(ps)
  {
    if i == 0 {
      assert MergeAt(ps, 0)[1..] == ps[2..] && ps[1..][1..] == ps[2..];
      AppendAssociates(ps[0], ps[1], Concat(ps[2..]));
    } else {
      assert MergeAt(ps, i)[1..] == MergeAt(ps[1..], i - 1);
      MergeKeepsText(ps[1..], i - 1);
    }
  }

  /** Merging never changes the text and always stops with no rule left for any adjacent pair. */
  lemma {:induction false} ApplyKeepsText(rules: seq<Pair>, ps: seq<Bytes>)
    ensures Concat(Apply(rules, ps)) == Concat(ps)
    ensures NoRule(rules, Apply(rules, ps), |Apply(rules, ps)|)
    ensures |Apply(rules, ps)| <= |ps| && (ps != [] ==> |Apply(rules, ps)| > 0)
    decreases |ps|
  {
    var best := BestPair(rules, ps);
    if ps != [] {
      BestIsLeftmost(rules, ps, |ps| - 1);
    }
    if best + 1 < |ps| {
      MergeKeepsText(ps, best);
      ApplyKeepsText(rules, MergeAt(ps, best));
    }
  }

  ghost predicate AllIn(ps: seq<Bytes>, vocab: seq<Bytes>) {
    forall i :: 0 <= i < |ps| ==> ps[i] in vocab
  }

  /** Every rule's result is a token. */
  ghost predicate ResultsIn(rules: seq<Pair>, vocab: seq<Bytes>) {
    forall r :: 0 <= r < |rules| ==> rules[r].0 + rules[r].1 in vocab
  }

  lemma {:induction false} ApplyStaysIn(rules: seq<Pair>, ps: seq<Bytes>, vocab: seq<Bytes>)
    requires AllIn(ps, vocab) && ResultsIn(rules, vocab)
    ensures AllIn(Apply(rules, ps), vocab)
    decreases |ps|
  {
    var best := BestPair(rules, ps);
    if best + 1 < |ps| {
      BestIsLeftmost(rules, ps, |ps| - 1);
      var r := Rank(rules, ps, best);
      assert rules[r].0 + rules[r].1 == ps[best] + ps[best + 1];
      ApplyStaysIn(rules, MergeAt(ps, best), vocab);
    }
  }

  /** Each piece is the forward map of a stretch of the original bytes. */
  ghost predicate Stretches(ps: seq<Bytes>, segs: seq<Bytes>) {
    |ps| == |segs| && forall i :: 0 <= i < |ps| ==> ps[i] == ForwardAll(segs[i])
  }

  lemma MergedAt(ps: seq<Bytes>, i: nat, k: nat)
    requires i + 1 < |ps| && k + 1 < |ps|
    ensures MergeAt(ps, i)[k] == if k < i then ps[k] else if k == i then ps[i] + ps[i + 1] else ps[k + 1]
  {
  }

  lemma StretchesMerge(ps: seq<Bytes>, segs: seq<Bytes>, i: nat)
    requires Stretches(ps, segs) && i + 1 < |ps|
    ensures Stretches(MergeAt(ps, i), MergeAt(segs, i))
  {
    ForwardAppend(segs[i], segs[i + 1]);
    forall k | 0 <= k < |ps| - 1 ensures MergeAt(ps, i)[k] == ForwardAll(MergeAt(segs, i)[k]) {
      MergedAt(ps, i, k);
      MergedAt(segs, i, k);
    }
  }

  lemma {:induction false} ApplyStretches(rules: seq<Pair>, ps: seq<Bytes>, segs: seq<Bytes>)
    returns (segs': seq<Bytes>)
    requires Stretches(ps, segs)
    ensures Stretches(Apply(rules, ps), segs') && Concat(segs') == Concat(segs)
    decreases |ps|
  {
    var best := BestPair(rules, ps);
    if best + 1 < |ps| {
      StretchesMerge(ps, segs, best);
      MergeKeepsText(segs, best);
      segs' := ApplyStretches(rules, MergeAt(ps, best), MergeAt(segs, best));
    } else {
      segs' := segs;
    }
  }

  // ----- the word buffer -----

  ghost predicate NulFree(s: Bytes) {
    0 !in s
  }

  function PiecesOf(bytes: Bytes, off: seq<nat>, len: seq<nat>): (ps: seq<Bytes>)
    requires |off| == |len| && forall i :: 0 <= i < |off| ==> off[i] + len[i] <= |bytes|
    ensures |ps| == |off| && forall i :: 0 <= i < |off| ==> ps[i] == bytes[off[i]..off[i] + len[i]]
  {
    seq(|off|, i requires 0 <= i < |off| => bytes[off[i]..off[i] + len[i]])
  }

  /** BpeWord: the pieces back to back in one buffer, with offsets and lengths. */
  class BpeWord {
    var bytes: Bytes
    var off: seq<nat>
    var len: seq<nat>

    ghost predicate Valid()
      reads this
    {
      NulFree(bytes) && |off| == |len| && forall i :: 0 <= i < |off| ==> off[i] + len[i] <= |bytes|
    }

    ghost function Pieces(): seq<Bytes>
      requires Valid()
      reads this
    {
      PiecesOf(bytes, off, len)
    }

    constructor ()
      ensures Valid() && Pieces() == []
    {
      bytes, off, len := [], [], [];
    }

    /** bpe_word_push. */
    method Push(piece: Bytes)
      requires Valid() && NulFree(piece)
      modifies this
      ensures Valid() && Pieces() == old(Pieces()) + [piece]
    {
      ghost var was := Pieces();
      var at := |bytes|;
      PushKeeps(bytes, off, len, piece);
      bytes, off, len := bytes + piece, off + [at], len + [|piece|];
    }
  }

  lemma PushKeeps(bytes: Bytes, off: seq<nat>, len: seq<nat>, piece: Bytes)
    requires |off| == |len| && forall i :: 0 <= i < |off| ==> off[i] + len[i] <= |bytes|
    ensures var off', len' := off + [|bytes|], len + [|piece|];
            (forall i :: 0 <= i < |off'| ==> off'[i] + len'[i] <= |bytes + piece|) &&
            PiecesOf(bytes + piece, off', len') == PiecesOf(bytes, off, len) + [piece]
  {
    var off', len' := off + [|bytes|], len + [|piece|];
    forall i | 0 <= i < |off| ensures (bytes + piece)[off'[i]..off'[i] + len'[i]] == bytes[off[i]..off[i] + len[i]] {
    }
    assert (bytes + piece)[|bytes|..|bytes| + |piece|] == piece;
  }

  // ----- the merging loops -----

  /** Rules whose joined halves fit the 512-byte scratch buffer of bpe_word_apply. */
  ghost predicate RulesFit(rules: seq<Pair>) {
    forall r :: 0 <= r < |rules| ==> |rules[r].0| + |rules[r].1| <= 512
  }

  /** The scan's state after i pairs. */
  ghost predicate Scanned(rules: seq<Pair>, ps: seq<Bytes>, i: nat, best: nat, bestRank: nat) {
    (i == 0 || i < |ps|) && best == BestUpto(rules, ps, i) &&
    (best < |ps| ==> best + 1 < |ps| && bestRank == Rank(rules, ps, best))
  }

  lemma ScanStep(rules: seq<Pair>, ps: seq<Bytes>, i: nat, best: nat, bestRank: nat, found: bool, rank: nat)
    requires Scanned(rules, ps, i, best, bestRank) && i + 1 < |ps|
    requires found == (Rank(rules, ps, i) < |rules|) && (found ==> rank == Rank(rules, ps, i))
    ensures if found && (best == |ps| || rank < bestRank) then Scanned(rules, ps, i + 1, i, rank)
            else Scanned(rules, ps, i + 1, best, bestRank)
  {
  }

  /** The scan for the best pair, each pair looked up through the index. */
  method FindBestPair(w: BpeWord, rules: seq<Pair>, ix: Index<Pair>, hash: imap<Pair, nat>) returns (best: nat)
    requires w.Valid() && ix.Holds(rules, hash) && |rules| < ix.slot.Length
    ensures best == BestPair(rules, w.Pieces())
  {
    ghost var ps := w.Pieces();
    best := |w.off|;
    var bestRank := 0;
    var i := 0;
    while i + 1 < |w.off|
      invariant Scanned(rules, ps, i, best, bestRank)
    {
      var a := w.bytes[w.off[i]..w.off[i] + w.len[i]];
      var b := w.bytes[w.off[i + 1]..w.off[i + 1] + w.len[i + 1]];
      var found, rank := ix.FindBest(rules, hash, (a, b));
      FirstMisses(rules, (a, b));
      ScanStep(rules, ps, i, best, bestRank, found, rank);
      if found && (best == |w.off| || rank < bestRank) {
        best, bestRank := i, rank;
      }
      i := i + 1;
    }
  }

  /** The new word after i turns of the copying loop. */
  ghost function Copied(ps: seq<Bytes>, best: nat, i: nat): seq<Bytes>
    requires best + 1 < |ps| && i <= |ps|
  {
    if i <= best then ps[..i] else MergeAt(ps, best)[..if i == best + 1 then i else i - 1]
  }

  lemma CopyStep(ps: seq<Bytes>, best: nat, i: nat)
    requires best + 1 < |ps| && i < |ps|
    ensures Copied(ps, best, i + 1) ==
            if i == best then Copied(ps, best, i) + [ps[best] + ps[best + 1]]
            else if i == best + 1 then Copied(ps, best, i)
            else Copied(ps, best, i) + [ps[i]]
  {
  }

  /** One turn of the copying loop. */
  method CopyTurn(w: BpeWord, best: nat, i: nat, nw: BpeWord, ghost ps: seq<Bytes>)
    requires w.Valid() && best + 1 < |w.off| && i < |w.off| && w.len[best] + w.len[best + 1] <= 512
    requires nw != w && nw.Valid() && ps == w.Pieces() && nw.Pieces() == Copied(ps, best, i)
    modifies nw
    ensures nw.Valid() && nw.Pieces() == Copied(ps, best, i + 1)
  {
    CopyStep(ps, best, i);
    if i == best {
      var merged := w.bytes[w.off[i]..w.off[i] + w.len[i]] + w.bytes[w.off[i + 1]..w.off[i + 1] + w.len[i + 1]];
      nw.Push(merged);
    } else if i == best + 1 {
    } else {
      nw.Push(w.bytes[w.off[i]..w.off[i] + w.len[i]]);
    }
  }

  /** One round: a new word with the pair at best joined in a scratch buffer. */
  method JoinPair(w: BpeWord, best: nat) returns (nw: BpeWord)
    requires w.Valid() && best + 1 < |w.off| && w.len[best] + w.len[best + 1] <= 512
    ensures fresh(nw) && nw.Valid() && nw.Pieces() == MergeAt(w.Pieces(), best)
  {
    ghost var ps := w.Pieces();
    nw := new BpeWord();
    for i := 0 to |w.off|
      invariant fresh(nw) && nw.Valid()
      invariant nw.Pieces() == Copied(ps, best, i)
    {
      CopyTurn(w, best, i, nw, ps);
    }
  }

  /** bpe_word_apply. */
  method ApplyWord(w: BpeWord, rules: seq<Pair>, ix: Index<Pair>, hash: imap<Pair, nat>) returns (r: BpeWord)
    requires w.Valid() && ix.Holds(rules, hash) && |rules| < ix.slot.Length && RulesFit(rules)
    ensures r.Valid() && r.Pieces() == Apply(rules, w.Pieces())
  {
    r := w;
    if |rules| == 0 {
      NoRulesNoMerge(w.Pieces());
      return;
    }
    while true
      invariant r.Valid() && Apply(rules, r.Pieces()) == Apply(rules, w.Pieces())
      decreases |r.off|
    {
      var best := FindBestPair(r, rules, ix, hash);
      if best == |r.off| {
        return;
      }
      JoinFits(rules, r.Pieces(), best);
      r := JoinPair(r, best);
    }
  }

  lemma NoRulesNoMerge(ps: seq<Bytes>)
    ensures Apply([], ps) == ps
  {
    if ps != [] {
      BestIsLeftmost([], ps, |ps| - 1);
    }
  }

  /** The pair to be joined has a rule, so it fits. */
  lemma JoinFits(rules: seq<Pair>, ps: seq<Bytes>, best: nat)
    requires RulesFit(rules) && best == BestPair(rules, ps) && best < |ps|
    ensures best + 1 < |ps| && |ps[best]| + |ps[best + 1]| <= 512
  {
    BestIsLeftmost(rules, ps, |ps| - 1);
    var r := Rank(rules, ps, best);
    assert rules[r] == (ps[best], ps[best + 1]);
  }
}
