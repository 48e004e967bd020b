/** The expectation half of the sampling law: windows, and chains of windows, keep the value of
    every valuation that is fair under plain target sampling. */
module SpeculativeFair {
  import opened RealSums
  import opened TokenDist
  import opened DecoderGraph
  import opened SpeculativeSpec
  import opened ResidualIdentity
  import opened SpeculativeLaw

  function Snoc(acc: seq<Token>, y: Token): seq<Token> {
    acc + [y]
  }

  /** The values one token later. */
  ghost function Children(v: Valuation, acc: seq<Token>, n: nat): (c: seq<real>)
    ensures |c| == n
  {
    seq(n, y requires 0 <= y < n => v[Snoc(acc, y)])
  }

  /** Up to horizon m, one more token of plain target sampling leaves v unchanged on average. */
  ghost predicate Fair(v: Valuation, e: Env, p: Spot, m: nat)
    requires e.Valid()
  {
    forall acc: seq<Token> {:trigger After(p, acc)} :: |acc| < m ==> FairAt(v, e, After(p, acc), acc)
  }

  ghost predicate FairAt(v: Valuation, e: Env, here: Spot, acc: seq<Token>)
    requires e.Valid()
  {
    v[acc] == Mean(e.gLaw[here], Children(v, acc, e.g.vocab))
  }

  /** The mean of v after a rejection: one token from the residual law. */
  ghost function RejectValue(e: Env, p: Spot, acc: seq<Token>, v: Valuation): real
    requires e.Valid()
  {
    Mean(ResidualLaw(e.dLaw[p], e.gLaw[p]), Children(v, acc, e.g.vocab))
  }

  lemma ExpectReject(e: Env, p: Spot, acc: seq<Token>, v: Valuation)
    requires e.Valid()
    ensures Expect(RejectTree(e.dLaw[p], e.gLaw[p], acc), v) == RejectValue(e, p, acc, v)
  {
    var t := RejectTree(e.dLaw[p], e.gLaw[p], acc);
    var es := Expects(t, v, t.next);
    forall y | 0 <= y < |es| ensures es[y] == Children(v, acc, e.g.vocab)[y] {
      assert t.next[y] == Done(Snoc(acc, y));
      assert Expect(t.next[y], v) == v[Snoc(acc, y)];
    }
    assert es == Children(v, acc, e.g.vocab);
  }

  lemma MeanOfCoin(a: real, es: seq<real>)
    requires |es| == 2
    ensures Mean(Coin(a), es) == Product(a, es[0]) + Product(1.0 - a, es[1])
  {
    assert Dot(Coin(a), es, 1) == Dot(Coin(a), es, 0) + Product(At(Coin(a), 0), At(es, 0));
    assert Dot(Coin(a), es, 2) == Dot(Coin(a), es, 1) + Product(At(Coin(a), 1), At(es, 1));
  }

  /** Verifying proposal x first: its worth, with the rest of the window as the value of standing. */
  lemma ExpectVerify(e: Env, p: Spot, x: Token, ds: seq<Token>, acc: seq<Token>, v: Valuation)
    requires e.Valid() && e.g.AcceptsAt(p)
    ensures Expect(VerifyTree(e, p, [x] + ds, acc), v) ==
            Worth(At(e.dLaw[p], x), At(e.gLaw[p], x), Expect(VerifyTree(e, p.Advance(x), ds, Snoc(acc, x)), v),
                  RejectValue(e, p, acc, v))
  {
    var t := VerifyTree(e, p, [x] + ds, acc);
    assert ([x] + ds)[1..] == ds && ([x] + ds)[0] == x;
    var es := Expects(t, v, t.next);
    assert es[0] == Expect(t.next[0], v) && es[1] == Expect(t.next[1], v);
    ExpectReject(e, p, acc, v);
    MeanOfCoin(AcceptProbability(At(e.dLaw[p], x), At(e.gLaw[p], x)), es);
  }

  /** The first proposal's verdict can be taken out of the average over the later proposals. */
  lemma {:induction false} Peel(e: Env, p: Spot, x: Token, acc: seq<Token>, here: Spot, ds: seq<Token>, n: nat,
                                v: Valuation)
    requires e.Valid() && e.AreLaws() && e.g.AcceptsAt(p)
    ensures Expect(DraftTree(e, p, acc, here, [x] + ds, n), v) ==
            Worth(At(e.dLaw[p], x), At(e.gLaw[p], x),
                  Expect(DraftTree(e, p.Advance(x), Snoc(acc, x), here, ds, n), v), RejectValue(e, p, acc, v))
    decreases n
  {
    if n == 0 || !e.d.AcceptsAt(here) {
      ExpectVerify(e, p, x, ds, acc, v);
    } else {
      var whole, inner := DraftTree(e, p, acc, here, [x] + ds, n),
                          DraftTree(e, p.Advance(x), Snoc(acc, x), here, ds, n);
      var ws, vs := Expects(whole, v, whole.next), Expects(inner, v, inner.next);
      var a := AcceptProbability(At(e.dLaw[p], x), At(e.gLaw[p], x));
      var c := Product(1.0 - a, RejectValue(e, p, acc, v));
      forall y | 0 <= y < |vs| ensures ws[y] == Product(a, vs[y]) + c {
        Peel(e, p, x, acc, here.Advance(y), ds + [y], n - 1, v);
        AppendAssociates([x], ds, [y]);
      }
      MeanOfLaw(e.dLaw[here], vs, ws, a, c);
    }
  }

  /** Where the target refuses to decode, the window ends at once whatever was drafted. */
  lemma {:induction false} ExpectRefused(e: Env, p: Spot, acc: seq<Token>, here: Spot, ds: seq<Token>, n: nat,
                                         v: Valuation)
    requires e.Valid() && e.AreLaws() && !e.g.AcceptsAt(p)
    ensures Expect(DraftTree(e, p, acc, here, ds, n), v) == v[acc]
    decreases n
  {
    if n > 0 && e.d.AcceptsAt(here) {
      var t := DraftTree(e, p, acc, here, ds, n);
      var es := Expects(t, v, t.next);
      forall y | 0 <= y < |es| ensures es[y] == v[acc] {
        ExpectRefused(e, p, acc, here.Advance(y), ds + [y], n - 1, v);
      }
      MeanConstant(e.dLaw[here], es, v[acc]);
    }
  }

  /** A window started after acc is worth, on average, exactly what acc is worth. */
  lemma {:induction false} WindowIsFair(e: Env, p0: Spot, acc: seq<Token>, n: nat, v: Valuation, m: nat)
    requires e.Valid() && e.AreLaws() && Fair(v, e, p0, m) && |acc| + n <= m
    ensures Expect(WindowTree(e, After(p0, acc), acc, n), v) == v[acc]
    decreases n
  {
    var p := After(p0, acc);
    if !e.g.AcceptsAt(p) {
      ExpectRefused(e, p, acc, p, [], n, v);
    } else if n > 0 && e.d.AcceptsAt(p) {
      var q, l, r, t := e.dLaw[p], e.gLaw[p], RejectValue(e, p, acc, v), Children(v, acc, e.g.vocab);
      var tree := WindowTree(e, p, acc, n);
      var es := Expects(tree, v, tree.next);
      forall x | 0 <= x < |es| ensures es[x] == Worths(q, l, t, r)[x] {
        ProposalIsFair(e, p0, acc, n, v, m, x);
      }
      assert es == Worths(q, l, t, r);
      OneTokenLaw(q, l, t);
      assert FairAt(v, e, p, acc);
    }
  }

  lemma {:induction false} ProposalIsFair(e: Env, p0: Spot, acc: seq<Token>, n: nat, v: Valuation, m: nat, x: Token)
    requires e.Valid() && e.AreLaws() && Fair(v, e, p0, m) && |acc| + n <= m && n > 0 && x < e.g.vocab
    requires e.g.AcceptsAt(After(p0, acc))
    ensures var p := After(p0, acc);
            Expect(DraftTree(e, p, acc, p.Advance(x), [] + [x], n - 1), v) ==
            Worth(At(e.dLaw[p], x), At(e.gLaw[p], x), v[Snoc(acc, x)], RejectValue(e, p, acc, v))
    decreases n, 0
  {
    var p := After(p0, acc);
    assert [] + [x] == [x] + [];
    Peel(e, p, x, acc, p.Advance(x), [], n - 1, v);
    AfterSnoc(p0, acc, x);
    WindowIsFair(e, p0, Snoc(acc, x), n - 1, v, m);
  }

  // ----- plain target sampling, and chains of windows -----

  /** The mean of F over n more tokens of plain target sampling after acc. */
  ghost function TargetMean(e: Env, here: Spot, acc: seq<Token>, n: nat, F: Valuation): real
    requires e.Valid()
    decreases n, 0
  {
    if n == 0 then F[acc] else Mean(e.gLaw[here], NextMeans(e, here, acc, n - 1, F))
  }

  ghost function NextMeans(e: Env, here: Spot, acc: seq<Token>, n: nat, F: Valuation): (c: seq<real>)
    requires e.Valid()
    ensures |c| == e.g.vocab
    decreases n, 1
  {
    seq(e.g.vocab, y requires 0 <= y < e.g.vocab => TargetMean(e, here.Advance(y), Snoc(acc, y), n, F))
  }

  /** What a stream that starts with acc is worth when target sampling completes it to m tokens. */
  ghost function TargetValue(e: Env, p: Spot, m: nat, F: Valuation): Valuation
    requires e.Valid()
  {
    imap acc: seq<Token> :: CompletedMean(e, p, m, F, acc)
  }

  ghost function CompletedMean(e: Env, p: Spot, m: nat, F: Valuation, acc: seq<Token>): real
    requires e.Valid()
  {
    if |acc| > m then 0.0 else TargetMean(e, After(p, acc), acc, m - |acc|, F)
  }

  lemma TargetValueIsFair(e: Env, p: Spot, m: nat, F: Valuation)
    requires e.Valid()
    ensures Fair(TargetValue(e, p, m, F), e, p, m)
  {
    forall acc: seq<Token> | |acc| < m ensures FairAt(TargetValue(e, p, m, F), e, After(p, acc), acc) {
      TargetValueFairAt(e, p, m, F, acc);
    }
  }

  lemma ValueAt(e: Env, p: Spot, m: nat, F: Valuation, acc: seq<Token>, left: nat)
    requires e.Valid() && |acc| + left == m
    ensures TargetValue(e, p, m, F)[acc] == TargetMean(e, After(p, acc), acc, left, F)
  {
    assert TargetValue(e, p, m, F)[acc] == CompletedMean(e, p, m, F, acc);
    assert left == m - |acc|;
  }

  lemma ChildAt(e: Env, p: Spot, m: nat, F: Valuation, acc: seq<Token>, left: nat, y: Token)
    requires e.Valid() && |acc| + 1 + left == m && y < e.g.vocab
    ensures Children(TargetValue(e, p, m, F), acc, e.g.vocab)[y] == NextMeans(e, After(p, acc), acc, left, F)[y]
  {
    AfterSnoc(p, acc, y);
    ValueAt(e, p, m, F, Snoc(acc, y), left);
  }

  lemma AllChildren(e: Env, p: Spot, m: nat, F: Valuation, acc: seq<Token>, left: nat)
    requires e.Valid() && |acc| + 1 + left == m
    ensures Children(TargetValue(e, p, m, F), acc, e.g.vocab) == NextMeans(e, After(p, acc), acc, left, F)
  {
    forall y: nat | y < e.g.vocab
      ensures Children(TargetValue(e, p, m, F), acc, e.g.vocab)[y] == NextMeans(e, After(p, acc), acc, left, F)[y]
    {
      ChildAt(e, p, m, F, acc, left, y);
    }
  }

  lemma OneMoreToken(e: Env, here: Spot, acc: seq<Token>, left: nat, n: nat, F: Valuation)
    requires e.Valid() && n == left + 1
    ensures TargetMean(e, here, acc, n, F) == Mean(e.gLaw[here], NextMeans(e, here, acc, left, F))
  {
  }

  lemma TargetValueFairAt(e: Env, p: Spot, m: nat, F: Valuation, acc: seq<Token>)
    requires e.Valid() && |acc| < m
    ensures FairAt(TargetValue(e, p, m, F), e, After(p, acc), acc)
  {
    var n := m - |acc|;
    AllChildren(e, p, m, F, acc, n - 1);
    OneMoreToken(e, After(p, acc), acc, n - 1, n, F);
    ValueAt(e, p, m, F, acc, n);
  }

  /** Speculative sampling preserves the target law: a window of any n proposals, completed to m
      tokens by plain target sampling, gives every test F the mean plain target sampling gives it. */
  lemma SamplingKeepsTheLaw(e: Env, p: Spot, n: nat, m: nat, F: Valuation)
    requires e.Valid() && e.AreLaws() && n <= m
    ensures Expect(WindowTree(e, p, [], n), TargetValue(e, p, m, F)) == TargetMean(e, p, [], m, F)
  {
    var v := TargetValue(e, p, m, F);
    TargetValueIsFair(e, p, m, F);
    WindowIsFair(e, p, [], n, v, m);
    FreshStart(e, p, m, F);
  }

  lemma FreshStart(e: Env, p: Spot, m: nat, F: Valuation)
    requires e.Valid()
    ensures After(p, []) == p && TargetValue(e, p, m, F)[[]] == TargetMean(e, p, [], m, F)
  {
  }

  /** The mean of v after c chained windows, each started where the one before it ended. */
  ghost function ChainMean(e: Env, p: Spot, n: nat, c: nat, acc: seq<Token>, v: Valuation): real
    requires e.Valid()
    decreases c, 0
  {
    if c == 0 then v[acc] else Expect(WindowTree(e, After(p, acc), acc, n), ChainValue(e, p, n, c - 1, v))
  }

  ghost function ChainValue(e: Env, p: Spot, n: nat, c: nat, v: Valuation): (w: Valuation)
    requires e.Valid()
    decreases c, 1
  {
    imap out: seq<Token> :: ChainMean(e, p, n, c, out, v)
  }

  /** The most tokens c windows of n proposals can write: c * n. */
  function Span(n: nat, c: nat): nat {
    if c == 0 then 0 else Span(n, c - 1) + n
  }

  ghost predicate Bounded(t: Prog, max: nat) {
    match t
    case Done(tokens) => |tokens| <= max
    case Branch(law, next) => forall i :: 0 <= i < |next| ==> Bounded(next[i], max)
  }

  lemma {:induction false} VerifyBounded(e: Env, p: Spot, ds: seq<Token>, acc: seq<Token>, max: nat)
    requires e.Valid() && |acc| + |ds| <= max
    ensures Bounded(VerifyTree(e, p, ds, acc), max)
    decreases |ds|
  {
    if |ds| > 0 && e.g.AcceptsAt(p) {
      VerifyBounded(e, p.Advance(ds[0]), ds[1..], acc + [ds[0]], max);
      var t := RejectTree(e.dLaw[p], e.gLaw[p], acc);
      forall i | 0 <= i < |t.next| ensures Bounded(t.next[i], max) {
      }
    }
  }

  lemma {:induction false} DraftBounded(e: Env, p: Spot, acc: seq<Token>, here: Spot, ds: seq<Token>, n: nat, max: nat)
    requires e.Valid() && |acc| + |ds| + n <= max
    ensures Bounded(DraftTree(e, p, acc, here, ds, n), max)
    decreases n
  {
    if n == 0 || !e.d.AcceptsAt(here) {
      VerifyBounded(e, p, ds, acc, max);
    } else {
      var t := DraftTree(e, p, acc, here, ds, n);
      forall y | 0 <= y < |t.next| ensures Bounded(t.next[y], max) {
        DraftBounded(e, p, acc, here.Advance(y), ds + [y], n - 1, max);
      }
    }
  }

  lemma {:induction false} ExpectAgrees(t: Prog, v: Valuation, w: Valuation, max: nat)
    requires Bounded(t, max) && forall s: seq<Token> :: |s| <= max ==> v[s] == w[s]
    ensures Expect(t, v) == Expect(t, w)
    decreases t
  {
    match t
    case Done(tokens) =>
    case Branch(law, next) =>
      var es, fs := Expects(t, v, next), Expects(t, w, next);
      forall i | 0 <= i < |next| ensures es[i] == fs[i] {
        ExpectAgrees(next[i], v, w, max);
      }
      assert es == fs;
  }

  /** Any number of chained windows keeps the target law. */
  lemma {:induction false} ChainKeepsTheLaw(e: Env, p: Spot, n: nat, c: nat, acc: seq<Token>, v: Valuation, m: nat)
    requires e.Valid() && e.AreLaws() && Fair(v, e, p, m) && |acc| + Span(n, c) <= m
    ensures ChainMean(e, p, n, c, acc, v) == v[acc]
    decreases c
  {
    if c > 0 {
      var t, w := WindowTree(e, After(p, acc), acc, n), ChainValue(e, p, n, c - 1, v);
      forall s: seq<Token> | |s| <= |acc| + n ensures w[s] == v[s] {
        ChainKeepsTheLaw(e, p, n, c - 1, s, v, m);
      }
      DraftBounded(e, After(p, acc), acc, After(p, acc), [], n, |acc| + n);
      ExpectAgrees(t, w, v, |acc| + n);
      WindowIsFair(e, p, acc, n, v, m);
    }
  }
}
