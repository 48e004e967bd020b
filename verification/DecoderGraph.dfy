/** A decoder graph as a position-indexed KV cache: decode writes one slot, computed from the slots
    below it, and returns logits computed from the same slots. */
module DecoderGraph {
  type KV = seq<real>
  type Token = nat

  /** A place in a token stream: the history already cached, and the token to feed next. */
  datatype Spot = Spot(hist: seq<Token>, feed: Token)
  {
    function Pos(): nat {
      |hist|
    }

    function Advance(x: Token): Spot {
      Spot(hist + [feed], x)
    }
  }

  /** The place reached after the tokens xs. */
  function After(p: Spot, xs: seq<Token>): (q: Spot)
    ensures q.Pos() == p.Pos() + |xs|
    decreases |xs|
  {
    if |xs| == 0 then p else After(p.Advance(xs[0]), xs[1..])
  }

  lemma {:induction false} AfterSnoc(p: Spot, xs: seq<Token>, x: Token)
    ensures After(p, xs + [x]) == After(p, xs).Advance(x)
    decreases |xs|
  {
    if |xs| == 0 {
      assert (xs + [x])[1..] == [];
    } else {
      assert (xs + [x])[1..] == xs[1..] + [x];
      AfterSnoc(p.Advance(xs[0]), xs[1..], x);
    }
  }

  /** The history after xs is the stream p.hist, p.feed, xs without its last token. */
  lemma {:induction false} AfterIsStream(p: Spot, xs: seq<Token>)
    ensures var q := After(p, xs); q.hist + [q.feed] == p.hist + [p.feed] + xs
    decreases |xs|
  {
    if |xs| == 0 {
      assert p.hist + [p.feed] + xs == p.hist + [p.feed];
    } else {
      AfterIsStream(p.Advance(xs[0]), xs[1..]);
      assert xs == [xs[0]] + xs[1..];
      assert p.hist + [p.feed] + xs == p.hist + [p.feed] + [xs[0]] + xs[1..];
    }
  }

  lemma {:induction false} AfterFeed(p: Spot, xs: seq<Token>)
    requires |xs| > 0
    ensures After(p, xs).feed == xs[|xs| - 1]
    decreases |xs|
  {
    if |xs| > 1 {
      AfterFeed(p.Advance(xs[0]), xs[1..]);
    }
  }

  lemma {:induction false} AfterAppend(p: Spot, xs: seq<Token>, ys: seq<Token>)
    ensures After(p, xs + ys) == After(After(p, xs), ys)
    decreases |xs|
  {
    if |xs| == 0 {
      assert xs + ys == ys;
    } else {
      assert (xs + ys)[1..] == xs[1..] + ys;
      AfterAppend(p.Advance(xs[0]), xs[1..], ys);
    }
  }

  lemma AfterGrows(p: Spot, xs: seq<Token>)
    ensures p.hist <= After(p, xs).hist
    ensures |xs| > 0 ==> p.hist + [p.feed] <= After(p, xs).hist
  {
    AfterIsStream(p, xs);
    var q := After(p, xs);
    assert q.hist == (p.hist + [p.feed] + xs)[..|q.hist|];
  }

  /** What one decode computes: the slot it writes and the logits it returns. */
  datatype Forward = Forward(slot: KV, logits: seq<real>)

  /** A model as the table of its forward pass, keyed by the slots below the position and the
      input token. Histories inside a context are finitely many, so a table covers any network. */
  datatype Model = Model(table: map<(seq<KV>, Token), Forward>, vocab: nat, nCtx: nat)
  {
    function Write(c: seq<KV>, t: Token): KV {
      if (c, t) in table then table[(c, t)].slot else []
    }

    function Head(c: seq<KV>, t: Token): (l: seq<real>)
      ensures |l| == vocab
    {
      if (c, t) in table && |table[(c, t)].logits| == vocab then table[(c, t)].logits else seq(vocab, i => 0.0)
    }

    /** The cache a from-scratch run over history h leaves in the first |h| slots. */
    function Canon(h: seq<Token>): (c: seq<KV>)
      ensures |c| == |h|
    {
      if |h| == 0 then [] else
        var c := Canon(h[..|h| - 1]);
        c + [Write(c, h[|h| - 1])]
    }

    /** The logits of a from-scratch run at spot p. */
    function Logits(p: Spot): (l: seq<real>)
      ensures |l| == vocab
    {
      Head(Canon(p.hist), p.feed)
    }

    /** decode's guards: the position inside the context, the token inside the vocabulary. */
    predicate Accepts(t: int, pos: int) {
      0 <= pos < nCtx && 0 <= t < vocab
    }

    predicate AcceptsAt(p: Spot) {
      Accepts(p.feed, p.Pos())
    }

    /** The slots of cache c below |h| are those of a from-scratch run over h. */
    ghost predicate Holds(c: seq<KV>, h: seq<Token>) {
      |h| <= |c| && c[..|h|] == Canon(h)
    }

    lemma {:induction false} CanonPrefix(h: seq<Token>, k: nat)
      requires k <= |h|
      ensures Canon(h)[..k] == Canon(h[..k])
    {
      if k == |h| {
        assert h[..k] == h;
      } else {
        CanonPrefix(h[..|h| - 1], k);
        assert h[..|h| - 1][..k] == h[..k];
        assert Canon(h)[..k] == Canon(h[..|h| - 1])[..k];
      }
    }

    lemma {:induction false} CanonEntry(h: seq<Token>, k: nat)
      requires k < |h|
      ensures Canon(h)[k] == Write(Canon(h[..k]), h[k])
    {
      if k < |h| - 1 {
        CanonEntry(h[..|h| - 1], k);
        assert h[..|h| - 1][..k] == h[..k];
      }
    }

    lemma HoldsPrefix(c: seq<KV>, b: seq<Token>, h: seq<Token>)
      requires Holds(c, b) && h <= b
      ensures Holds(c, h)
    {
      CanonPrefix(b, |h|);
      assert b[..|h|] == h;
      TakeTake(c, |h|, |b|);
    }

    /** Decoding a token the cache already holds in place changes nothing. */
    lemma HoldsRewrite(c: seq<KV>, b: seq<Token>, h: seq<Token>, t: Token)
      requires Holds(c, b) && h + [t] <= b
      ensures c[|h| := Write(c[..|h|], t)] == c
    {
      var n := |h|;
      assert b[..n] == h && b[n] == t;
      CanonPrefix(b, n);
      CanonEntry(b, n);
      TakeTake(c, n, |b|);
      assert c[n] == c[..|b|][n] == Write(c[..n], t);
    }

    /** Decoding on a canonical cache extends the canonical run by one token. */
    lemma HoldsExtend(c: seq<KV>, h: seq<Token>, t: Token)
      requires |h| < |c| && Holds(c, h)
      ensures Holds(c[|h| := Write(c[..|h|], t)], h + [t])
    {
      assert (h + [t])[..|h|] == h;
      assert c[|h| := Write(c[..|h|], t)][..|h| + 1] == c[..|h|] + [Write(c[..|h|], t)];
    }

    lemma TakeTake(c: seq<KV>, n: nat, m: nat)
      requires n <= m <= |c|
      ensures c[..m][..n] == c[..n]
    {
    }
  }

  class Graph {
    const model: Model
    var cache: seq<KV>

    ghost predicate Valid()
      reads this
    {
      model.vocab > 0 && |cache| == model.nCtx
    }

    constructor (model: Model, cache: seq<KV>)
      requires model.vocab > 0 && |cache| == model.nCtx
      ensures this.model == model && this.cache == cache && Valid()
    {
      this.model := model;
      this.cache := cache;
    }

    /** vg_model_graph_decode, as far as callers see it. */
    method Decode(t: int, pos: int, logits: array<real>) returns (ok: bool)
      requires Valid() && logits.Length == model.vocab
      modifies this`cache, logits
      ensures Valid() && ok == model.Accepts(t, pos)
      ensures !ok ==> cache == old(cache) && logits[..] == old(logits[..])
      ensures ok ==> cache == old(cache)[pos := model.Write(old(cache)[..pos], t)]
      ensures ok ==> logits[..] == model.Head(old(cache)[..pos], t)
    {
      if pos < 0 || pos >= model.nCtx {
        return false;
      }
      if t < 0 || t >= model.vocab {
        return false;
      }
      var out := model.Head(cache[..pos], t);
      cache := cache[pos := model.Write(cache[..pos], t)];
      ghost var now := cache;
      for v := 0 to logits.Length
        invariant cache == now && logits[..v] == out[..v]
      {
        logits[v] := out[v];
      }
      assert logits[..] == out;
      return true;
    }

    /** Decoding at the end of a cached history. */
    method DecodeAt(t: int, pos: int, logits: array<real>, ghost h: seq<Token>) returns (ok: bool)
      requires Valid() && logits.Length == model.vocab && pos == |h| && model.Holds(cache, h)
      modifies this`cache, logits
      ensures Valid() && ok == model.Accepts(t, pos)
      ensures !ok ==> cache == old(cache)
      ensures ok ==> cache == old(cache)[pos := model.Write(old(cache)[..pos], t)]
      ensures ok ==> model.Holds(cache, h + [t]) && logits[..] == model.Logits(Spot(h, t))
    {
      ghost var before := cache;
      ok := Decode(t, pos, logits);
      if ok {
        model.HoldsExtend(before, h, t);
      }
    }
  }
}
