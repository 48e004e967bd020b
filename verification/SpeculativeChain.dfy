/** The driver's windows one after another, in sampling mode: c windows on one tape are one probability tree, run,
    and over that tree the target's law is unchanged. */
module SpeculativeChain {
  import opened RealSums
  import opened TokenDist
  import opened DecoderGraph
  import opened SpeculativeSpec
  import opened SpeculativeLaw
  import opened SpeculativeFair

  /** c windows, each started where the one before it ended, on one tape. */
  function Windows(d: Model, g: Model, f: Sampler, p: Spot, n: nat, c: nat, tape: seq<real>, k: nat): Outcome
    requires f.Keeps()
    decreases c
  {
    if c == 0 then Outcome([], k) else
      var o := Window(d, g, f, p, n, tape, k);
      var rest := Windows(d, g, f, After(p, o.tokens), n, c - 1, tape, o.at);
      Outcome(o.tokens + rest.tokens, rest.at)
  }

  /** The tree of c windows after the tokens acc. */
  function ChainTree(e: Env, p: Spot, n: nat, c: nat, acc: seq<Token>): Prog
    requires e.Valid()
    decreases c, 0
  {
    if c == 0 then Done(acc) else Then(WindowTree(e, After(p, acc), acc, n), e, p, n, c - 1)
  }

  /** t, and c windows more wherever it ends. */
  function Then(t: Prog, e: Env, p: Spot, n: nat, c: nat): Prog
    requires e.Valid()
    decreases c, 1, t
  {
    match t
    case Done(out) => ChainTree(e, p, n, c, out)
    case Branch(law, next) => Branch(law, seq(|next|, i requires 0 <= i < |next| => Then(next[i], e, p, n, c)))
  }

  /** Every branch has as many subtrees as its law has entries. */
  ghost predicate Shaped(t: Prog) {
    match t
    case Done(_) => true
    case Branch(law, next) => |next| == |law| > 0 && forall i :: 0 <= i < |next| ==> Shaped(next[i])
  }

  lemma {:induction false} VerifyShaped(e: Env, p: Spot, ds: seq<Token>, acc: seq<Token>)
    requires e.Valid()
    ensures Shaped(VerifyTree(e, p, ds, acc))
    decreases |ds|
  {
    if |ds| > 0 && e.g.AcceptsAt(p) {
      VerifyShaped(e, p.Advance(ds[0]), ds[1..], acc + [ds[0]]);
      var t := RejectTree(e.dLaw[p], e.gLaw[p], acc);
      forall i | 0 <= i < |t.next| ensures Shaped(t.next[i]) {
      }
    }
  }

  lemma {:induction false} DraftShaped(e: Env, p: Spot, acc: seq<Token>, here: Spot, ds: seq<Token>, n: nat)
    requires e.Valid()
    ensures Shaped(DraftTree(e, p, acc, here, ds, n))
    decreases n
  {
    if n == 0 || !e.d.AcceptsAt(here) {
      VerifyShaped(e, p, ds, acc);
    } else {
      var t := DraftTree(e, p, acc, here, ds, n);
      forall y | 0 <= y < |t.next| ensures Shaped(t.next[y]) {
        DraftShaped(e, p, acc, here.Advance(y), ds + [y], n - 1);
      }
    }
  }

  // ----- running the chain -----

  /** Running on runs what comes first, and then the rest from where it ended, on the draws it left. */
  lemma {:induction false} RunThen(t: Prog, e: Env, p: Spot, n: nat, c: nat, tape: seq<real>, k: nat)
    requires e.Valid() && Shaped(t)
    ensures var o := Run(t, tape, k);
            Run(Then(t, e, p, n, c), tape, k) == Run(ChainTree(e, p, n, c, o.tokens), tape, o.at)
    decreases t
  {
    if t.Branch? {
      var i := Pick(t.law, Draw(tape, k));
      RunThen(t.next[i], e, p, n, c, tape, k + 1);
    }
  }

  /** A window run after acc is its tree, run. */
  ghost predicate WindowIsTree(e: Env, f: Sampler, p: Spot, acc: seq<Token>, n: nat, tape: seq<real>, k: nat)
    requires e.Valid() && f.Keeps()
  {
    var o := Window(e.d, e.g, f, p, n, tape, k);
    Run(WindowTree(e, p, acc, n), tape, k) == Outcome(acc + o.tokens, o.at)
  }

  ghost predicate WindowsAreTrees(e: Env, f: Sampler, n: nat, tape: seq<real>)
    requires e.Valid() && f.Keeps()
  {
    forall p: Spot, acc: seq<Token>, k: nat :: WindowIsTree(e, f, p, acc, n, tape, k)
  }

  /** Then the windows one after another are the tree of all of them, run. */
  lemma {:induction false} ChainRun(e: Env, f: Sampler, p: Spot, acc: seq<Token>, n: nat, c: nat, tape: seq<real>,
                                    k: nat)
    requires e.Valid() && f.Keeps() && WindowsAreTrees(e, f, n, tape)
    ensures var o := Windows(e.d, e.g, f, After(p, acc), n, c, tape, k);
            Run(ChainTree(e, p, n, c, acc), tape, k) == Outcome(acc + o.tokens, o.at)
    decreases c
  {
    if c == 0 {
      EmptyAppends(acc);
    } else {
      var here := After(p, acc);
      var o := Window(e.d, e.g, f, here, n, tape, k);
      var acc' := acc + o.tokens;
      var rest := Windows(e.d, e.g, f, After(here, o.tokens), n, c - 1, tape, o.at);
      assert WindowIsTree(e, f, here, acc, n, tape, k);
      DraftShaped(e, here, acc, here, [], n);
      RunThen(WindowTree(e, here, acc, n), e, p, n, c - 1, tape, k);
      AfterAppend(p, acc, o.tokens);
      ChainRun(e, f, p, acc', n, c - 1, tape, o.at);
      AppendAssociates(acc, o.tokens, rest.tokens);
    }
  }

  // ----- its mean -----

  lemma {:induction false} ExpectThen(t: Prog, e: Env, p: Spot, n: nat, c: nat, v: Valuation)
    requires e.Valid()
    ensures Expect(Then(t, e, p, n, c), v) == Expect(t, ChainValue(e, p, n, c, v))
    decreases c, 1, t
  {
    match t
    case Done(out) => ExpectChain(e, p, n, c, out, v);
    case Branch(law, next) =>
      var u, w := Then(t, e, p, n, c), ChainValue(e, p, n, c, v);
      var es, fs := Expects(u, v, u.next), Expects(t, w, next);
      forall i | 0 <= i < |next| ensures es[i] == fs[i] {
        ExpectThen(next[i], e, p, n, c, v);
      }
      assert es == fs;
  }

  lemma {:induction false} ExpectChain(e: Env, p: Spot, n: nat, c: nat, acc: seq<Token>, v: Valuation)
    requires e.Valid()
    ensures Expect(ChainTree(e, p, n, c, acc), v) == ChainMean(e, p, n, c, acc, v)
    decreases c, 0
  {
    if c > 0 {
      ExpectThen(WindowTree(e, After(p, acc), acc, n), e, p, n, c - 1, v);
    }
  }

  /** For any two models of one vocabulary and any temperature: over the tree of c windows of n proposals, completed to
      m tokens by plain target sampling, every test F on the token stream has the mean that plain target sampling gives
      it. */
  lemma SpeculationKeepsTheTargetLaw(s: Softmax, f: Sampler, d: Model, g: Model, p: Spot, n: nat, c: nat, m: nat,
                                     F: Valuation)
    requires Implements(s, f) && d.vocab == g.vocab > 0 && Span(n, c) <= m
    ensures var e := EnvOf(s, f, d, g);
            e.Valid() && Expect(ChainTree(e, p, n, c, []), TargetValue(e, p, m, F)) == TargetMean(e, p, [], m, F)
  {
    var e := EnvOf(s, f, d, g);
    EnvOfIsLawful(s, f, d, g);
    TargetValueIsFair(e, p, m, F);
    FreshStart(e, p, m, F);
    ChainKeepsTheLaw(e, p, n, c, [], TargetValue(e, p, m, F), m);
    ExpectChain(e, p, n, c, [], TargetValue(e, p, m, F));
  }

  /** And above temperature 0 the c windows that run are that tree, on every tape inside the unit interval. */
  lemma SpeculationRunsTheTree(s: Softmax, f: Sampler, d: Model, g: Model, p: Spot, n: nat, c: nat, tape: seq<real>,
                               k: nat)
    requires Implements(s, f) && d.vocab == g.vocab > 0 && s.temperature > 0.0 && Inside(tape)
    ensures var e := EnvOf(s, f, d, g);
            e.Valid() && Windows(d, g, f, p, n, c, tape, k) == Run(ChainTree(e, p, n, c, []), tape, k)
  {
    var e := EnvOf(s, f, d, g);
    EnvOfIsLawful(s, f, d, g);
    forall p': Spot, acc: seq<Token>, k': nat ensures WindowIsTree(e, f, p', acc, n, tape, k') {
      WindowRunsTree(s, f, e, p', acc, n, tape, k');
    }
    ChainRun(e, f, p, [], n, c, tape, k);
    EmptyAppends(Windows(d, g, f, p, n, c, tape, k).tokens);
  }
}
