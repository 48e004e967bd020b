/** vg_speculative_step as it runs: two graphs (possibly one object), scratch buffers, a draw
    stream and the caller's output array. */
module SpeculativeStep {
  import opened RealSums
  import opened TokenDist
  import opened DecoderGraph
  import opened SpeculativeSpec

  /** The scratch the step allocates on entry. */
  class Scratch {
    const vocab: nat
    const dLogits: array<real>
    const tLogits: array<real>
    const pDraft: array<real>
    const pTarget: array<real>

    ghost predicate Valid() {
      vocab == dLogits.Length == tLogits.Length == pDraft.Length == pTarget.Length > 0 &&
      dLogits != tLogits && dLogits != pDraft && dLogits != pTarget &&
      tLogits != pDraft && tLogits != pTarget && pDraft != pTarget
    }

    ghost function Buffers(): set<object> {
      {dLogits, tLogits, pDraft, pTarget}
    }

    constructor (n: nat)
      requires n > 0
      ensures Valid() && vocab == n && fresh(Buffers())
    {
      vocab := n;
      dLogits := new real[n];
      tLogits := new real[n];
      pDraft := new real[n];
      pTarget := new real[n];
    }
  }

  /** The argmax scans of lines 126-127 and 148-149. */
  method BestOf(p: array<real>) returns (best: nat)
    requires p.Length > 0
    ensures best == ArgMax(p[..])
  {
    best := 0;
    for v := 1 to p.Length
      invariant best == ArgMaxOf(p[..], v)
    {
      if p[v] > p[best] {
        best := v;
      }
    }
  }

  /** Lines 122-130: turn fresh draft logits into one proposal and its probability. */
  method Propose(s: Softmax, w: Scratch, rng: Rng, ghost f: Sampler) returns (x: Token, q: real)
    requires w.Valid() && Implements(s, f)
    modifies w.pDraft, rng
    ensures var p := f.Dist(old(w.dLogits[..]));
            x == f.Pick(p, Draw(rng.tape, old(rng.at))) && x < w.vocab && q == At(p, x)
    ensures rng.at == old(rng.at) + Drawn(f, 1)
  {
    ghost var l := w.dLogits[..];
    DistFromLogits(s, w.dLogits, w.pDraft);
    ghost var p := w.pDraft[..];
    if s.temperature > 0.0 {
      x := SampleFrom(w.pDraft, rng);
    } else {
      x := BestOf(w.dLogits);
      GreedyArgMax(s, l);
    }
    assert x == Choose(s, p, Draw(rng.tape, old(rng.at)));
    assert w.pDraft[..] == p;
    q := w.pDraft[x];
  }

  /** One turn of the draft loop: decode at the next slot, then propose from the result. */
  method DraftOne(d: Graph, s: Softmax, feed: int, pos: int, w: Scratch, rng: Rng, ghost f: Sampler,
                  ghost h: seq<Token>)
    returns (ok: bool, x: Token, q: real)
    requires d.Valid() && w.Valid() && w.vocab == d.model.vocab && Implements(s, f)
    requires pos == |h| && d.model.Holds(d.cache, h)
    modifies d`cache, w.dLogits, w.pDraft, rng
    ensures d.Valid() && ok == d.model.Accepts(feed, pos)
    ensures !ok ==> d.cache == old(d.cache) && rng.at == old(rng.at)
    ensures ok ==> d.model.Holds(d.cache, h + [feed]) && rng.at == old(rng.at) + Drawn(f, 1) && x < d.model.vocab
    ensures ok ==> var p := Law(d.model, f, Spot(h, feed)); x == f.Pick(p, Draw(rng.tape, old(rng.at))) && q == At(p, x)
  {
    ok := d.DecodeAt(feed, pos, w.dLogits, h);
    if !ok {
      return false, 0, 0.0;
    }
    x, q := Propose(s, w, rng, f);
  }

  /** The draft loop's state: ds are proposed and cached, with their probabilities in qs. */
  ghost predicate Drafting(d: Model, f: Sampler, p: Spot, n: nat, tape: seq<real>, k0: nat, dc: seq<KV>,
                           ds: seq<Token>, qs: seq<real>, k: nat)
    requires f.Keeps()
  {
    d.Holds(dc, After(p, ds).hist) && Remembers(d, f, p, ds, qs) && k == k0 + Drawn(f, |ds|) &&
    Drafted(d, f, Proposals(d, f, p, n, tape, k0), n, tape, ds, After(p, ds), k)
  }

  method DraftTurn(d: Graph, s: Softmax, feed: Token, pos: int, w: Scratch, rng: Rng, ghost f: Sampler, ghost p: Spot,
                   ghost n: nat, ghost k0: nat, ghost ds: seq<Token>, ghost qs: seq<real>)
    returns (ok: bool, x: Token, q: real)
    requires d.Valid() && w.Valid() && w.vocab == d.model.vocab && Implements(s, f) && |ds| < n
    requires feed == After(p, ds).feed && pos == After(p, ds).Pos()
    requires Drafting(d.model, f, p, n, rng.tape, k0, d.cache, ds, qs, rng.at)
    modifies d`cache, w.dLogits, w.pDraft, rng
    ensures d.Valid() && (ok ==> After(p, ds + [x]).feed == x)
    ensures !ok ==> ds == Proposals(d.model, f, p, n, rng.tape, k0) && d.cache == old(d.cache)
    ensures if ok then Drafting(d.model, f, p, n, rng.tape, k0, d.cache, ds + [x], qs + [q], rng.at)
            else Drafting(d.model, f, p, n, rng.tape, k0, d.cache, ds, qs, rng.at)
  {
    ghost var all, here, k := Proposals(d.model, f, p, n, rng.tape, k0), After(p, ds), rng.at;
    ok, x, q := DraftOne(d, s, feed, pos, w, rng, f, here.hist);
    if ok {
      AfterSnoc(p, ds, x);
      RemembersSnoc(d.model, f, p, ds, qs, x, q);
      DraftedOneMore(d.model, f, all, n, rng.tape, ds, here, k, x);
    } else {
      DraftedAll(d.model, f, all, n, rng.tape, ds, here, k);
    }
  }

  /** Phase 1: the proposals from spot p, and the probability the draft gave each. */
  method DraftPhase(d: Graph, s: Softmax, input: Token, kvPos: int, n: nat, w: Scratch, rng: Rng, ghost f: Sampler,
                    ghost p: Spot)
    returns (draft: seq<Token>, qProp: seq<real>)
    requires d.Valid() && w.Valid() && w.vocab == d.model.vocab && Implements(s, f)
    requires input == p.feed && kvPos == p.Pos() && d.model.Holds(d.cache, p.hist)
    modifies d`cache, w.dLogits, w.pDraft, rng
    ensures d.Valid() && draft == Proposals(d.model, f, p, n, rng.tape, old(rng.at))
    ensures Drafting(d.model, f, p, n, rng.tape, old(rng.at), d.cache, draft, qProp, rng.at)
    ensures draft == [] ==> d.cache == old(d.cache)
  {
    draft, qProp := [], [];
    ghost var k0 := rng.at;
    for i := 0 to n
      invariant d.Valid() && |draft| == i && (i == 0 ==> d.cache == old(d.cache))
      invariant After(p, draft).feed == if i == 0 then input else draft[i - 1]
      invariant Drafting(d.model, f, p, n, rng.tape, k0, d.cache, draft, qProp, rng.at)
    {
      var feed := if i == 0 then input else draft[i - 1];
      var ok, x, q := DraftTurn(d, s, feed, kvPos + i, w, rng, f, p, n, k0, draft, qProp);
      if !ok {
        return;
      }
      draft, qProp := draft + [x], qProp + [q];
    }
    DraftedAll(d.model, f, Proposals(d.model, f, p, n, rng.tape, k0), n, rng.tape, draft, After(p, draft), rng.at);
  }

  /** Decode the target at spot h; the draft graph, even when it is the same object, still holds b. */
  method TargetDecode(d: Graph, g: Graph, feed: Token, pos: int, w: Scratch, ghost h: seq<Token>, ghost b: seq<Token>)
    returns (ok: bool)
    requires d.Valid() && g.Valid() && w.Valid() && w.vocab == g.model.vocab
    requires pos == |h| && g.model.Holds(g.cache, h) && d.model.Holds(d.cache, b) && h + [feed] <= b
    modifies g`cache, w.tLogits
    ensures d.Valid() && g.Valid() && ok == g.model.Accepts(feed, pos)
    ensures d.model.Holds(d.cache, b) && g.model.Holds(g.cache, h)
    ensures ok ==> g.model.Holds(g.cache, h + [feed]) && w.tLogits[..] == g.model.Logits(Spot(h, feed))
  {
    if d == g {
      g.model.HoldsRewrite(g.cache, b, h, feed);
    }
    ok := g.DecodeAt(feed, pos, w.tLogits, h);
    if ok {
      assert h <= h + [feed];
      g.model.HoldsPrefix(g.cache, h + [feed], h);
    }
  }

  /** Lines 169-176: re-derive the draft law at this spot and draw the replacement from the residual. */
  method Reject(d: Graph, s: Softmax, feed: Token, pos: int, w: Scratch, rng: Rng, ghost f: Sampler,
                ghost h: seq<Token>, ghost b: seq<Token>)
    returns (x: Token)
    requires d.Valid() && w.Valid() && w.vocab == d.model.vocab && Implements(s, f)
    requires pos == |h| && d.model.Holds(d.cache, b) && h + [feed] <= b && d.model.Accepts(feed, pos)
    modifies d`cache, w.dLogits, w.pDraft, rng
    ensures d.cache == old(d.cache)
    ensures var q, p := Law(d.model, f, Spot(h, feed)), old(w.pTarget[..]);
            x == f.Replace(q, p, Draw(rng.tape, old(rng.at))) && rng.at == old(rng.at) + f.ReplaceDraws(q, p)
  {
    assert h <= h + [feed] <= b;
    d.model.HoldsPrefix(d.cache, b, h);
    d.model.HoldsRewrite(d.cache, b, h, feed);
    var ok := d.DecodeAt(feed, pos, w.dLogits, h);
    assert ok;   // the proposal was decoded at this very slot: the zero-law fallback is never taken
    DistFromLogits(s, w.dLogits, w.pDraft);
    ghost var q, p := w.pDraft[..], w.pTarget[..];
    x := SampleResidual(w.pDraft, w.pTarget, rng);
    assert x == PickResidual(q, p, Draw(rng.tape, old(rng.at)));
    assert rng.at == old(rng.at) + ResidualDraws(q, p);
  }

  /** Lines 143-176 on one proposal x, whose remembered draft probability is qx. */
  method VerifyOne(d: Graph, g: Graph, s: Softmax, x: Token, qx: real, feed: Token, pos: int, w: Scratch, rng: Rng,
                   ghost f: Sampler, ghost here: Spot, ghost b: seq<Token>)
    returns (ok: bool, accept: bool, token: Token)
    requires d.Valid() && g.Valid() && w.Valid() && w.vocab == d.model.vocab == g.model.vocab && Implements(s, f)
    requires feed == here.feed && pos == here.Pos() && g.model.Holds(g.cache, here.hist)
    requires d.model.Holds(d.cache, b) && here.hist + [feed] <= b
    requires d.model.AcceptsAt(here) && x < d.model.vocab && qx == At(Law(d.model, f, here), x)
    modifies g`cache, d`cache, w.dLogits, w.tLogits, w.pDraft, w.pTarget, rng
    ensures d.Valid() && g.Valid() && d.model.Holds(d.cache, b) && ok == g.model.AcceptsAt(here)
    ensures g.model.Holds(g.cache, if ok then here.hist + [feed] else here.hist)
    ensures if ok then Turn(accept, token, rng.at) ==
                       TurnOf(f, Law(d.model, f, here), Law(g.model, f, here), x, rng.tape, old(rng.at))
            else rng.at == old(rng.at)
  {
    ok := TargetDecode(d, g, feed, pos, w, here.hist, b);
    if !ok {
      return false, false, 0;
    }
    DistFromLogits(s, w.tLogits, w.pTarget);
    ghost var p := w.pTarget[..];
    assert p == Law(g.model, f, here);
    if s.temperature <= 0.0 {
      token := BestOf(w.pTarget);
      assert token == Choose(s, p, Draw(rng.tape, rng.at));
      accept := x == token;
    } else {
      var acceptP := AcceptProbability(qx, w.pTarget[x]);
      var u := rng.RandUnit();
      accept := u <= acceptP;
      token := x;
      if !accept {
        token := Reject(d, s, feed, pos, w, rng, f, here.hist, b);
      }
    }
  }

  /** Both caches are in step with what is written. */
  ghost predicate InStep(d: Model, g: Model, p: Spot, draft: seq<Token>, dc: seq<KV>, gc: seq<KV>, acc: seq<Token>) {
    d.Holds(dc, After(p, draft).hist) && g.Holds(gc, After(p, acc).hist) && |acc| <= |draft| &&
    (|acc| > 0 ==> After(p, acc).hist <= After(p, draft).hist)
  }

  /** Either more proposals are to be judged or the window has ended in outcome o. */
  ghost predicate Standing(d: Model, g: Model, f: Sampler, p: Spot, draft: seq<Token>, tape: seq<real>, o: Outcome,
                           acc: seq<Token>, k: nat, more: bool)
    requires f.Keeps() && |acc| <= |draft|
  {
    if more then acc == draft[..|acc|] && Stood(d, g, f, o, tape, acc, draft[|acc|..], After(p, acc), k)
    else o == Outcome(acc, k)
  }

  /** The verify loop's state: acc is written, both caches are in step with it, and either more
      proposals are to be judged or the window has ended in outcome o. */
  ghost predicate Judging(d: Model, g: Model, f: Sampler, p: Spot, draft: seq<Token>, tape: seq<real>, o: Outcome,
                          dc: seq<KV>, gc: seq<KV>, acc: seq<Token>, k: nat, more: bool)
    requires f.Keeps()
  {
    InStep(d, g, p, draft, dc, gc, acc) && Standing(d, g, f, p, draft, tape, o, acc, k, more)
  }

  lemma NextProposal(draft: seq<Token>, acc: seq<Token>, x: Token)
    requires |acc| < |draft| && acc == draft[..|acc|]
    ensures draft[|acc|..][0] == draft[|acc|] && draft[|acc|..][1..] == draft[|acc| + 1..]
    ensures x == draft[|acc|] ==> acc + [x] == draft[..|acc| + 1]
  {
  }

  lemma StandingOne(d: Model, g: Model, f: Sampler, p: Spot, draft: seq<Token>, tape: seq<real>, o: Outcome,
                    acc: seq<Token>, k: nat, v: Turn, acc': seq<Token>)
    requires f.Keeps() && |acc| < |draft| && Standing(d, g, f, p, draft, tape, o, acc, k, true)
    requires var here := After(p, acc);
             g.AcceptsAt(here) && v == TurnOf(f, Law(d, f, here), Law(g, f, here), draft[|acc|], tape, k)
    requires acc' == acc + [v.token]
    ensures Standing(d, g, f, p, draft, tape, o, acc', v.at, v.accept)
  {
    NextProposal(draft, acc, v.token);
    AfterSnoc(p, acc, v.token);
    StoodOneMore(d, g, f, o, tape, acc, draft[|acc|..], After(p, acc), k, v);
  }

  lemma InStepOne(d: Model, g: Model, p: Spot, draft: seq<Token>, dc: seq<KV>, gc: seq<KV>, acc: seq<Token>, x: Token,
                  acc': seq<Token>)
    requires |acc| < |draft| && acc' == acc + [x] && d.Holds(dc, After(p, draft).hist)
    requires var here := After(p, acc);
             g.Holds(gc, here.hist + [here.feed]) && here.hist + [here.feed] <= After(p, draft).hist
    ensures InStep(d, g, p, draft, dc, gc, acc') && After(p, acc').feed == x
  {
    AfterSnoc(p, acc, x);
  }

  /** Where the target refuses to decode, the window ends with what stands. */
  lemma StandingNone(d: Model, g: Model, f: Sampler, p: Spot, draft: seq<Token>, tape: seq<real>, o: Outcome,
                     acc: seq<Token>, k: nat)
    requires f.Keeps() && |acc| <= |draft| && Standing(d, g, f, p, draft, tape, o, acc, k, true)
    requires !g.AcceptsAt(After(p, acc)) || |acc| == |draft|
    ensures Standing(d, g, f, p, draft, tape, o, acc, k, false)
  {
    StoodAll(d, g, f, o, tape, acc, draft[|acc|..], After(p, acc), k);
  }

  method Write(accepted: array<Token>, written: nat, token: Token, ghost acc: seq<Token>)
    returns (ghost acc': seq<Token>)
    requires written == |acc| < accepted.Length && accepted[..written] == acc
    modifies accepted
    ensures acc' == acc + [token] && accepted[..|acc'|] == acc' && accepted[written] == token
  {
    accepted[written] := token;
    acc' := acc + [token];
  }

  /** One turn of the verify loop. */
  method VerifyTurn(d: Graph, g: Graph, s: Softmax, x: Token, qx: real, feed: Token, pos: int, accepted: array<Token>,
                    written: nat, w: Scratch, rng: Rng, ghost f: Sampler, ghost p: Spot, ghost draft: seq<Token>,
                    ghost qProp: seq<real>, ghost acc: seq<Token>, ghost o: Outcome)
    returns (ok: bool, more: bool, ghost acc': seq<Token>)
    requires d.Valid() && g.Valid() && w.Valid() && w.vocab == d.model.vocab == g.model.vocab && Implements(s, f)
    requires Remembers(d.model, f, p, draft, qProp) && |acc| < |draft| <= accepted.Length
    requires x == draft[|acc|] && qx == qProp[|acc|] && feed == After(p, acc).feed && pos == After(p, acc).Pos()
    requires written == |acc| && accepted[..written] == acc
    requires Judging(d.model, g.model, f, p, draft, rng.tape, o, d.cache, g.cache, acc, rng.at, true)
    modifies g`cache, d`cache, w.dLogits, w.tLogits, w.pDraft, w.pTarget, accepted, rng
    ensures d.Valid() && g.Valid() && (more ==> ok)
    ensures |acc'| == |acc| + (if ok then 1 else 0) && accepted[..|acc'|] == acc'
    ensures ok ==> After(p, acc').feed == accepted[written]
    ensures Judging(d.model, g.model, f, p, draft, rng.tape, o, d.cache, g.cache, acc', rng.at, more)
  {
    ghost var here, b, k := After(p, acc), After(p, draft).hist, rng.at;
    RememberedAt(d.model, f, p, draft, qProp, |acc|);
    var accept, token;
    ok, accept, token := VerifyOne(d, g, s, x, qx, feed, pos, w, rng, f, here, b);
    if !ok {
      StandingNone(d.model, g.model, f, p, draft, rng.tape, o, acc, k);
      return false, false, acc;
    }
    acc' := Write(accepted, written, token, acc);
    more := accept;
    InStepOne(d.model, g.model, p, draft, d.cache, g.cache, acc, token, acc');
    StandingOne(d.model, g.model, f, p, draft, rng.tape, o, acc, k, Turn(accept, token, rng.at), acc');
  }

  /** Phase 2: the target judges the proposals in order; acc is what the step writes. */
  method VerifyPhase(d: Graph, g: Graph, s: Softmax, draft: seq<Token>, qProp: seq<real>, input: Token, kvPos: int,
                     accepted: array<Token>, w: Scratch, rng: Rng, ghost f: Sampler, ghost p: Spot)
    returns (written: nat, ghost acc: seq<Token>)
    requires d.Valid() && g.Valid() && w.Valid() && w.vocab == d.model.vocab == g.model.vocab && Implements(s, f)
    requires |draft| <= accepted.Length && Remembers(d.model, f, p, draft, qProp)
    requires input == p.feed && kvPos == p.Pos()
    requires g.model.Holds(g.cache, p.hist) && d.model.Holds(d.cache, After(p, draft).hist)
    modifies g`cache, d`cache, w.dLogits, w.tLogits, w.pDraft, w.pTarget, accepted, rng
    ensures d.Valid() && g.Valid() && written == |acc| <= accepted.Length && accepted[..written] == acc
    ensures Judging(d.model, g.model, f, p, draft, rng.tape,
                    Verdict(d.model, g.model, f, p, draft, rng.tape, old(rng.at)), d.cache, g.cache, acc, rng.at, false)
  {
    ghost var o := Verdict(d.model, g.model, f, p, draft, rng.tape, rng.at);
    var ok, more, feed := true, true, input;
    written, acc := 0, [];
    assert draft[0..] == draft;
    while more && written < |draft|
      invariant d.Valid() && g.Valid() && written == |acc| <= |draft| && accepted[..written] == acc
      invariant more ==> feed == After(p, acc).feed
      invariant Judging(d.model, g.model, f, p, draft, rng.tape, o, d.cache, g.cache, acc, rng.at, more)
      decreases |draft| - written, more
    {
      ok, more, acc := VerifyTurn(d, g, s, draft[written], qProp[written], feed, kvPos + written, accepted, written,
                                  w, rng, f, p, draft, qProp, acc, o);
      if ok {
        feed, written := accepted[written], written + 1;
      }
    }
    if more {
      StandingNone(d.model, g.model, f, p, draft, rng.tape, o, acc, rng.at);
    }
  }

  lemma WindowEnds(d: Model, g: Model, f: Sampler, p: Spot, n: nat, tape: seq<real>, k0: nat, draft: seq<Token>,
                   k1: nat, dc: seq<KV>, gc: seq<KV>, out: seq<Token>, k: nat)
    requires f.Keeps() && draft == Proposals(d, f, p, n, tape, k0) && k1 == k0 + Drawn(f, |draft|)
    requires Judging(d, g, f, p, draft, tape, Verdict(d, g, f, p, draft, tape, k1), dc, gc, out, k, false)
    ensures Outcome(out, k) == Window(d, g, f, p, n, tape, k0)
    ensures d.Holds(dc, After(p, out).hist) && g.Holds(gc, After(p, out).hist)
  {
    AfterGrows(p, draft);
    d.HoldsPrefix(dc, After(p, draft).hist, After(p, out).hist);
  }

  /** Lines 117-182 of the source: one window of n proposals from spot p. */
  method RunWindow(d: Graph, g: Graph, s: Softmax, n: nat, input: Token, kvPos: int, accepted: array<Token>,
                   w: Scratch, rng: Rng, ghost f: Sampler, ghost p: Spot)
    returns (written: nat, ghost out: seq<Token>)
    requires d.Valid() && g.Valid() && w.Valid() && w.vocab == d.model.vocab == g.model.vocab && Implements(s, f)
    requires n <= accepted.Length && input == p.feed && kvPos == p.Pos()
    requires g.model.Holds(g.cache, p.hist) && d.model.Holds(d.cache, p.hist)
    modifies g`cache, d`cache, w.dLogits, w.tLogits, w.pDraft, w.pTarget, accepted, rng
    ensures d.Valid() && g.Valid() && written == |out| <= accepted.Length && accepted[..written] == out
    ensures Outcome(out, rng.at) == Window(d.model, g.model, f, p, n, rng.tape, old(rng.at))
    ensures d.model.Holds(d.cache, After(p, out).hist) && g.model.Holds(g.cache, After(p, out).hist)
  {
    var draft, qProp := DraftPhase(d, s, input, kvPos, n, w, rng, f, p);
    ghost var k1 := rng.at;
    if |draft| == 0 {
      return 0, [];
    }
    AfterGrows(p, draft);
    d.model.HoldsPrefix(d.cache, After(p, draft).hist, p.hist);
    written, out := VerifyPhase(d, g, s, draft, qProp, input, kvPos, accepted, w, rng, f, p);
    WindowEnds(d.model, g.model, f, p, n, rng.tape, old(rng.at), draft, k1, d.cache, g.cache, out, rng.at);
  }

  /** vg_speculative_step. The output and both caches end where the window's specification says;
      a negative input stands at token 0's spot, where nothing is written. */
  method Step(d: Graph, g: Graph, s: Softmax, nDraft: int, input: int, kvPos: int, accepted: array<Token>,
              maxAccepted: int, rng: Rng, ghost f: Sampler, ghost h: seq<Token>)
    returns (written: nat, ghost out: seq<Token>)
    requires d.Valid() && g.Valid() && Implements(s, f) && maxAccepted <= accepted.Length
    requires kvPos == |h| && g.model.Holds(g.cache, h) && d.model.Holds(d.cache, h)
    modifies g`cache, d`cache, accepted, rng
    ensures d.Valid() && g.Valid() && written == |out| <= accepted.Length && accepted[..written] == out
    ensures maxAccepted < 1 || d.model.vocab != g.model.vocab || input < 0 ==> out == []
    ensures maxAccepted >= 1 && d.model.vocab == g.model.vocab && input >= 0 ==>
      Outcome(out, rng.at) ==
      Window(d.model, g.model, f, Spot(h, input), DraftCount(nDraft, maxAccepted), rng.tape, old(rng.at))
    ensures var end := After(Spot(h, if input < 0 then 0 else input), out).hist;
            d.model.Holds(d.cache, end) && g.model.Holds(g.cache, end)
  {
    if maxAccepted < 1 || d.model.vocab != g.model.vocab {
      return 0, [];
    }
    if input < 0 {
      return 0, [];   // the first draft decode refuses a negative token, so nothing is produced
    }
    var w := new Scratch(g.model.vocab);
    written, out := RunWindow(d, g, s, DraftCount(nDraft, maxAccepted), input, kvPos, accepted, w, rng, f,
                              Spot(h, input));
  }
}
