/** Greedy mode: whatever the draft model is, windows emit exactly the target's own greedy stream. */
module SpeculativeGreedy {
  import opened TokenDist
  import opened DecoderGraph
  import opened SpeculativeSpec

  /** A next-token rule: every spot's successor. */
  type Next = n: imap<Spot, Token> | Total(n) ghost witness imap p: Spot :: 0

  ghost predicate Total(n: imap<Spot, Token>) {
    forall p: Spot :: p in n
  }

  /** Plain decoding of n tokens from spot p under a rule. */
  ghost function Stream(next: Next, p: Spot, n: nat): (xs: seq<Token>)
    ensures |xs| == n
    decreases n
  {
    if n == 0 then [] else [next[p]] + Stream(next, p.Advance(next[p]), n - 1)
  }

  lemma {:induction false} StreamSplits(next: Next, p: Spot, a: nat, b: nat)
    ensures var xs := Stream(next, p, a); Stream(next, p, a + b) == xs + Stream(next, After(p, xs), b)
    decreases a
  {
    if a > 0 {
      var q := p.Advance(next[p]);
      StreamSplits(next, q, a - 1, b);
      var xs := Stream(next, q, a - 1);
      assert ([next[p]] + xs)[1..] == xs;
      AppendAssociates([next[p]], xs, Stream(next, After(q, xs), b));
    }
  }

  /** Streams can be cut anywhere and continued from where they were cut. */
  lemma StreamExtends(next: Next, p: Spot, xs: seq<Token>, ys: seq<Token>, m: nat)
    requires xs == Stream(next, p, |xs|) && ys == Stream(next, After(p, xs), |ys|) && m <= |ys|
    ensures xs + ys[..m] == Stream(next, p, |xs| + m)
  {
    StreamSplits(next, After(p, xs), m, |ys| - m);
    StreamSplits(next, p, |xs|, m);
  }

  /** The rule of greedy decoding: the first token with the largest logit. */
  ghost function GreedyRule(m: Model): (next: Next)
    requires m.vocab > 0
    ensures IsGreedy(next, m)
  {
    imap p: Spot :: ArgMax(m.Logits(p))
  }

  ghost predicate IsGreedy(next: Next, m: Model)
    requires m.vocab > 0
  {
    (forall p {:trigger m.Logits(p)} :: next[p] == ArgMax(m.Logits(p))) &&
    (forall p :: next[p] < m.vocab)
  }

  lemma {:induction false} StreamInRange(next: Next, p: Spot, n: nat, bound: nat)
    requires forall q :: next[q] < bound
    ensures forall i :: 0 <= i < n ==> Stream(next, p, n)[i] < bound
    decreases n
  {
    if n > 0 {
      StreamInRange(next, p.Advance(next[p]), n - 1, bound);
    }
  }

  /** At temperature 0 the picked token is the argmax of the logits, whatever the draw. */
  lemma GreedyPick(s: Softmax, f: Sampler, m: Model, next: Next, p: Spot, u: real)
    requires Implements(s, f) && s.temperature <= 0.0 && m.vocab > 0 && IsGreedy(next, m)
    ensures f.Pick(Law(m, f, p), u) == next[p] < m.vocab
  {
    var l := m.Logits(p);
    GreedyArgMax(s, l);
    assert f.Dist(l) == Dist(s, l);
    assert f.Pick(Dist(s, l), u) == Choose(s, Dist(s, l), u);
  }

  /** The verify phase writes a prefix of the target's greedy stream, for any proposals at all. */
  lemma {:induction false} VerdictIsGreedy(s: Softmax, f: Sampler, d: Model, g: Model, next: Next, p: Spot,
                                           ds: seq<Token>, tape: seq<real>, k: nat)
    requires Implements(s, f) && s.temperature <= 0.0 && g.vocab > 0 && IsGreedy(next, g)
    ensures var o := Verdict(d, g, f, p, ds, tape, k);
            o.tokens == Stream(next, p, |o.tokens|) && o.at == k &&
            (|ds| > 0 && g.AcceptsAt(p) <==> |o.tokens| > 0)
    decreases |ds|
  {
    if |ds| > 0 && g.AcceptsAt(p) {
      GreedyPick(s, f, g, next, p, Draw(tape, k));
      assert Stream(next, p.Advance(next[p]), 0) == [];
      if ds[0] == next[p] {
        VerdictIsGreedy(s, f, d, g, next, p.Advance(next[p]), ds[1..], tape, k);
      }
    }
  }

  /** A greedy window emits the target's greedy stream: at least one token exactly when both
      graphs accept the input, never more than n, and no draw is read. */
  lemma GreedyWindow(s: Softmax, f: Sampler, d: Model, g: Model, next: Next, p: Spot, n: nat, tape: seq<real>, k: nat)
    requires Implements(s, f) && s.temperature <= 0.0 && g.vocab > 0 && IsGreedy(next, g)
    ensures var o := Window(d, g, f, p, n, tape, k);
            o.tokens == Stream(next, p, |o.tokens|) && o.at == k && |o.tokens| <= n &&
            (|o.tokens| >= 1 <==> n > 0 && d.AcceptsAt(p) && g.AcceptsAt(p))
  {
    var ds := Proposals(d, f, p, n, tape, k);
    VerdictIsGreedy(s, f, d, g, next, p, ds, tape, k + Drawn(f, |ds|));
  }

  /** With the target as its own draft every proposal stands: the window is as long as the
      context allows. */
  lemma {:induction false} SelfDraftAcceptsAll(s: Softmax, f: Sampler, g: Model, next: Next, p: Spot, n: nat,
                                               tape: seq<real>, k: nat)
    requires Implements(s, f) && s.temperature <= 0.0 && g.vocab > 0 && IsGreedy(next, g) && p.feed < g.vocab
    ensures var ds := Proposals(g, f, p, n, tape, k);
            Verdict(g, g, f, p, ds, tape, k) == Outcome(ds, k) &&
            |ds| == if p.Pos() + n <= g.nCtx then n else if p.Pos() <= g.nCtx then g.nCtx - p.Pos() else 0
    decreases n
  {
    if n > 0 && g.AcceptsAt(p) {
      var x := next[p];
      GreedyPick(s, f, g, next, p, Draw(tape, k));
      SelfDraftAcceptsAll(s, f, g, next, p.Advance(x), n - 1, tape, k);
      var ds := Proposals(g, f, p, n, tape, k);
      assert ds[1..] == Proposals(g, f, p.Advance(x), n - 1, tape, k);
    }
  }
}
