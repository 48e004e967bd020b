/** The driver of src/main.c: chained greedy windows, from fresh caches to a printed stream. */
module SpeculativeRun {
  import opened TokenDist
  import opened DecoderGraph
  import opened SpeculativeSpec
  import opened SpeculativeStep
  import opened SpeculativeGreedy

  /** What the driver has printed: a piece of the greedy stream, ended by the quota or by eos. */
  ghost predicate Printed(next: Next, start: Spot, stream: seq<Token>, eos: int, quota: int, emitted: int) {
    stream == Stream(next, start, |stream|) && |stream| <= quota &&
    (forall i :: 0 <= i < |stream| - 1 ==> stream[i] != eos) &&
    if emitted < quota then emitted == |stream| && eos !in stream
    else |stream| == quota || (|stream| > 0 && stream[|stream| - 1] == eos)
  }

  /** The inner loop: print the window xs until the quota or the end-of-sequence token. */
  method Emit(accepted: array<Token>, n: nat, eos: int, quota: int, sofar: seq<Token>, ghost next: Next,
              ghost start: Spot, ghost xs: seq<Token>)
    returns (stream: seq<Token>, emitted: int)
    requires 0 < n <= accepted.Length && accepted[..n] == xs && xs == Stream(next, After(start, sofar), n)
    requires |sofar| < quota && Printed(next, start, sofar, eos, quota, |sofar|)
    ensures Printed(next, start, stream, eos, quota, emitted)
    ensures emitted < quota ==> stream == sofar + xs
    ensures |sofar| < |stream| <= |sofar| + n
  {
    stream, emitted := sofar, |sofar|;
    for i := 0 to n
      invariant stream == sofar + xs[..i] && emitted == |stream| <= quota && eos !in stream
    {
      if emitted >= quota {
        StreamExtends(next, start, sofar, xs, i);
        return;
      }
      stream := stream + [accepted[i]];
      assert accepted[..n][i] == xs[i];
      if accepted[i] == eos {
        emitted := quota;
        StreamExtends(next, start, sofar, xs, i + 1);
        return;
      }
      emitted := emitted + 1;
    }
    StreamExtends(next, start, sofar, xs, n);
  }

  /** The tokens xs are the target's greedy stream from start, and both caches hold all but the last. */
  ghost predicate Running(d: Model, g: Model, dc: seq<KV>, gc: seq<KV>, next: Next, start: Spot, xs: seq<Token>,
                          token: int, pos: int)
  {
    var here := After(start, xs);
    xs == Stream(next, start, |xs|) && token == here.feed && pos == here.Pos() &&
    d.Holds(dc, here.hist) && g.Holds(gc, here.hist)
  }

  lemma RunningExtends(d: Model, g: Model, dc: seq<KV>, gc: seq<KV>, next: Next, start: Spot, xs: seq<Token>,
                       ys: seq<Token>)
    requires xs == Stream(next, start, |xs|) && ys == Stream(next, After(start, xs), |ys|)
    requires var end := After(After(start, xs), ys).hist; d.Holds(dc, end) && g.Holds(gc, end)
    ensures Running(d, g, dc, gc, next, start, xs + ys,
                    if |ys| > 0 then ys[|ys| - 1] else After(start, xs).feed, After(start, xs).Pos() + |ys|)
  {
    AfterAppend(start, xs, ys);
    if |ys| > 0 {
      AfterFeed(After(start, xs), ys);
    }
    assert ys[..|ys|] == ys;
    StreamExtends(next, start, xs, ys, |ys|);
  }

  /** One greedy step of the driver: the caches and the stream stay in step. */
  method NextWindow(d: Graph, g: Graph, s: Softmax, nDraft: int, token: Token, pos: int, accepted: array<Token>,
                    rng: Rng, ghost f: Sampler, ghost next: Next, ghost start: Spot, ghost xs: seq<Token>)
    returns (n: nat, token': Token, pos': int, ghost ys: seq<Token>, ghost xs': seq<Token>)
    requires d.Valid() && g.Valid() && Implements(s, f) && s.temperature <= 0.0 && d.model.vocab == g.model.vocab
    requires IsGreedy(next, g.model) && accepted.Length >= nDraft > 0 && nDraft <= 64
    requires Running(d.model, g.model, d.cache, g.cache, next, start, xs, token, pos)
    modifies g`cache, d`cache, accepted, rng
    ensures d.Valid() && g.Valid() && n == |ys| <= accepted.Length && accepted[..n] == ys
    ensures n <= nDraft && (n == 0 <==> !d.model.Accepts(token, pos) || !g.model.Accepts(token, pos))
    ensures ys == Stream(next, After(start, xs), n) && (n > 0 ==> ys[n - 1] < g.model.vocab)
    ensures token' == (if n > 0 then ys[n - 1] else token) && pos' == pos + n && xs' == xs + ys
    ensures Running(d.model, g.model, d.cache, g.cache, next, start, xs', token', pos')
  {
    ghost var here, k := After(start, xs), rng.at;
    assert here == Spot(here.hist, token);
    n, ys := Step(d, g, s, nDraft, token, pos, accepted, accepted.Length, rng, f, here.hist);
    GreedyWindow(s, f, d.model, g.model, next, here, nDraft, rng.tape, k);
    StreamInRange(next, here, n, g.model.vocab);
    RunningExtends(d.model, g.model, d.cache, g.cache, next, start, xs, ys);
    xs', pos' := xs + ys, pos + n;
    if n > 0 {
      token' := accepted[n - 1];
      assert accepted[..n][n - 1] == ys[n - 1];
    } else {
      token' := token;
    }
  }

  /** The driver between two windows: what is printed, and while more is wanted, where the graphs stand. */
  ghost predicate Driving(d: Model, g: Model, dc: seq<KV>, gc: seq<KV>, next: Next, start: Spot, eos: int, quota: int,
                          stream: seq<Token>, emitted: int, token: int, pos: int)
  {
    Printed(next, start, stream, eos, quota, emitted) &&
    (emitted < quota ==> pos == |stream| && (token == start.feed || token < g.vocab) &&
                         Running(d, g, dc, gc, next, start, stream, token, pos))
  }

  /** One turn of the driver; more is false once a graph refuses. */
  method DriveTurn(d: Graph, g: Graph, s: Softmax, nDraft: int, token: Token, pos: int, accepted: array<Token>,
                   rng: Rng, eos: int, quota: int, stream: seq<Token>, ghost f: Sampler, ghost next: Next,
                   ghost start: Spot)
    returns (more: bool, stream': seq<Token>, emitted': int, token': Token, pos': int)
    requires d.Valid() && g.Valid() && Implements(s, f) && s.temperature <= 0.0 && d.model.vocab == g.model.vocab
    requires IsGreedy(next, g.model) && accepted.Length >= nDraft > 0 && nDraft <= 64 && |stream| < quota
    requires Driving(d.model, g.model, d.cache, g.cache, next, start, eos, quota, stream, |stream|, token, pos)
    modifies g`cache, d`cache, accepted, rng
    ensures d.Valid() && g.Valid() && (more ==> |stream| < |stream'| <= |stream| + nDraft)
    ensures Driving(d.model, g.model, d.cache, g.cache, next, start, eos, quota, stream', emitted', token', pos')
    ensures !more ==> stream' == stream && emitted' == |stream|
    ensures !more ==> !d.model.Accepts(token, pos) || !g.model.Accepts(token, pos)
  {
    ghost var ys, xs;
    var n;
    n, token', pos', ys, xs := NextWindow(d, g, s, nDraft, token, pos, accepted, rng, f, next, start, stream);
    if n == 0 {
      assert stream + ys == stream;
      return false, stream, |stream|, token', pos';
    }
    stream', emitted' := Emit(accepted, n, eos, quota, stream, next, start, ys);
    more := true;
  }

  method GenerateFrom(d: Graph, g: Graph, s: Softmax, bos: Token, eos: int, quota: int, rng: Rng, ghost f: Sampler,
                      ghost next: Next)
    returns (stream: seq<Token>)
    requires d.Valid() && g.Valid() && s.temperature <= 0.0 && d.model.vocab == g.model.vocab && quota > 0
    requires Implements(s, f) && IsGreedy(next, g.model)
    modifies g`cache, d`cache, rng
    ensures stream == Stream(next, Spot([], bos), |stream|) && |stream| <= quota
    ensures forall i :: 0 <= i < |stream| - 1 ==> stream[i] != eos
    ensures |stream| == quota || (|stream| > 0 && stream[|stream| - 1] == eos) ||
            |stream| + 5 >= g.model.nCtx || |stream| >= d.model.nCtx || bos >= g.model.vocab
    ensures stream != [] ==> |stream| + 2 <= g.model.nCtx
  {
    stream := [];
    ghost var start := Spot([], bos);
    var nDraft, accepted := 4, new Token[8];
    var pos, token, emitted := 0, bos, 0;
    while emitted < quota && pos + nDraft + 1 < g.model.nCtx
      invariant d.Valid() && g.Valid()
      invariant Driving(d.model, g.model, d.cache, g.cache, next, start, eos, quota, stream, emitted, token, pos)
      invariant stream != [] ==> |stream| + 2 <= g.model.nCtx
      decreases quota - |stream|
    {
      var more, token', pos';
      more, stream, emitted, token', pos' :=
        DriveTurn(d, g, s, nDraft, token, pos, accepted, rng, eos, quota, stream, f, next, start);
      if !more {
        break;
      }
      token, pos := token', pos';
    }
  }

  /** Chained greedy windows print the target's greedy stream from bos, for any draft graph and any
      left-over cache contents; they stop at the quota, at eos, or at the end of a context. */
  method Generate(d: Graph, g: Graph, s: Softmax, bos: int, eos: int, quota: int, rng: Rng) returns (stream: seq<Token>)
    requires d.Valid() && g.Valid() && s.temperature <= 0.0 && d.model.vocab == g.model.vocab
    modifies g`cache, d`cache, rng
    ensures |stream| > 0 ==>
              bos >= 0 && stream == Stream(GreedyRule(g.model), Spot([], bos), |stream|) && |stream| <= quota
    ensures forall i :: 0 <= i < |stream| - 1 ==> stream[i] != eos
    ensures |stream| >= quota || (|stream| > 0 && stream[|stream| - 1] == eos) ||
            |stream| + 5 >= g.model.nCtx || |stream| >= d.model.nCtx || !(0 <= bos < g.model.vocab)
    ensures stream != [] ==> |stream| + 2 <= g.model.nCtx
  {
    if bos < 0 || quota <= 0 {
      return [];   // nothing is asked for, or the first step refuses the token and writes nothing
    }
    SoftmaxImplements(s);
    stream := GenerateFrom(d, g, s, bos, eos, quota, rng, SamplerOf(s), GreedyRule(g.model));
  }
}
