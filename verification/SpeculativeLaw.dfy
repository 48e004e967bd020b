/** Sampling mode leaves the target's law unchanged. A window is unfolded into a probability tree
    whose branches are weighted exactly as its draws select them; every valuation of token streams
    that is fair under target sampling keeps its expectation over that tree. */
module SpeculativeLaw {
  import opened RealSums
  import opened TokenDist
  import opened DecoderGraph
  import opened SpeculativeSpec
  import opened ResidualIdentity

  // ----- probability trees -----

  /** A randomized computation: finish with some tokens, or branch by one draw under a law. */
  datatype Prog = Done(tokens: seq<Token>) | Branch(law: seq<real>, next: seq<Prog>)

  /** Run a tree on a tape: each branch is picked by inverse CDF from the next draw. */
  function Run(t: Prog, tape: seq<real>, k: nat): (o: Outcome)
    decreases t
  {
    match t
    case Done(tokens) => Outcome(tokens, k)
    case Branch(law, next) =>
      if |law| == 0 || |next| != |law| then Outcome([], k)
      else Run(next[Pick(law, Draw(tape, k))], tape, k + 1)
  }

  /** A valuation of finished streams. */
  type Valuation = v: imap<seq<Token>, real> | Everywhere(v) ghost witness imap s: seq<Token> :: 0.0

  ghost predicate Everywhere(v: imap<seq<Token>, real>) {
    forall s: seq<Token> :: s in v
  }

  /** The expectation of v over a tree whose draws are uniform on the unit interval. */
  ghost function Expect(t: Prog, v: Valuation): real
    decreases t, 1
  {
    match t
    case Done(tokens) => v[tokens]
    case Branch(law, next) => Mean(law, Expects(t, v, next))
  }

  ghost function Expects(t: Prog, v: Valuation, next: seq<Prog>): (es: seq<real>)
    requires t.Branch? && next == t.next
    ensures |es| == |next|
    decreases t, 0
  {
    seq(|next|, i requires 0 <= i < |next| => Expect(next[i], v))
  }

  // ----- means -----

  /** Under a law, the mean of a*v + c is a times the mean of v, plus c. */
  lemma {:induction false} MeanAffine(law: seq<real>, v: seq<real>, w: seq<real>, a: real, c: real, n: nat)
    requires n <= |law| == |v| == |w|
    requires forall i :: 0 <= i < |v| ==> w[i] == Product(a, v[i]) + c
    ensures Dot(law, w, n) == Product(a, Dot(law, v, n)) + Product(Sum(n, Terms(law)), c)
  {
    if n > 0 {
      MeanAffine(law, v, w, a, c, n - 1);
      AffineStep(law[n - 1], v[n - 1], a, c, Dot(law, v, n - 1), Sum(n - 1, Terms(law)));
    }
  }

  lemma AffineStep(l: real, v: real, a: real, c: real, d: real, s: real)
    ensures Product(a, d) + Product(s, c) + Product(l, Product(a, v) + c) ==
            Product(a, d + Product(l, v)) + Product(s + l, c)
  {
    assert l * (a * v + c) == a * (l * v) + l * c;
  }

  lemma MeanOfLaw(law: seq<real>, v: seq<real>, w: seq<real>, a: real, c: real)
    requires IsDist(law) && |law| == |v| == |w|
    requires forall i :: 0 <= i < |v| ==> w[i] == Product(a, v[i]) + c
    ensures Mean(law, w) == Product(a, Mean(law, v)) + c
  {
    MeanAffine(law, v, w, a, c, |law|);
  }

  /** A constant is its own mean. */
  lemma MeanConstant(law: seq<real>, w: seq<real>, c: real)
    requires IsDist(law) && |law| == |w| && forall i :: 0 <= i < |w| ==> w[i] == c
    ensures Mean(law, w) == c
  {
    MeanOfLaw(law, w, w, 0.0, c);
  }

  // ----- the window's tree -----

  /** The laws of the two models at every spot, and which spots they accept. */
  datatype Env = Env(dLaw: imap<Spot, seq<real>>, gLaw: imap<Spot, seq<real>>, d: Model, g: Model)
  {
    ghost predicate Valid() {
      d.vocab == g.vocab > 0 &&
      (forall p: Spot :: p in dLaw && |dLaw[p]| == g.vocab) && (forall p: Spot :: p in gLaw && |gLaw[p]| == g.vocab)
    }

    ghost predicate AreLaws() {
      (forall p: Spot :: p in dLaw && IsDist(dLaw[p])) && (forall p: Spot :: p in gLaw && IsDist(gLaw[p]))
    }
  }

  function Coin(a: real): seq<real> {
    [a, 1.0 - a]
  }

  /** Verify ds from spot p, after the tokens acc. */
  function VerifyTree(e: Env, p: Spot, ds: seq<Token>, acc: seq<Token>): Prog
    requires e.Valid()
    decreases |ds|
  {
    if |ds| == 0 || !e.g.AcceptsAt(p) then Done(acc) else
      var q, l, x := e.dLaw[p], e.gLaw[p], ds[0];
      Branch(Coin(AcceptProbability(At(q, x), At(l, x))),
             [VerifyTree(e, p.Advance(x), ds[1..], acc + [x]), RejectTree(q, l, acc)])
  }

  function RejectTree(q: seq<real>, l: seq<real>, acc: seq<Token>): Prog
    requires |q| == |l| > 0
  {
    Branch(ResidualLaw(q, l), seq(|l|, y requires 0 <= y < |l| => Done(acc + [y])))
  }

  /** Draft n more tokens at `here` after ds, then verify them all from spot p. */
  function DraftTree(e: Env, p: Spot, acc: seq<Token>, here: Spot, ds: seq<Token>, n: nat): Prog
    requires e.Valid()
    decreases n
  {
    if n == 0 || !e.d.AcceptsAt(here) then VerifyTree(e, p, ds, acc) else
      Branch(e.dLaw[here], seq(e.g.vocab, y requires 0 <= y < e.g.vocab =>
                               DraftTree(e, p, acc, here.Advance(y), ds + [y], n - 1)))
  }

  /** A whole window at spot p after the tokens acc. */
  function WindowTree(e: Env, p: Spot, acc: seq<Token>, n: nat): Prog
    requires e.Valid()
  {
    DraftTree(e, p, acc, p, [], n)
  }

  // ----- the tree is the window -----

  /** The environment's laws are those the sampler derives from the two models. */
  ghost predicate Derives(e: Env, f: Sampler)
    requires e.Valid() && f.Keeps()
  {
    (forall p: Spot {:trigger Law(e.d, f, p)} :: e.dLaw[p] == Law(e.d, f, p)) &&
    (forall p: Spot {:trigger Law(e.g, f, p)} :: e.gLaw[p] == Law(e.g, f, p))
  }

  /** The environment of two models under a softmax setting. */
  ghost function EnvOf(s: Softmax, f: Sampler, d: Model, g: Model): (e: Env)
    requires Implements(s, f) && d.vocab == g.vocab > 0
  {
    Env(imap p: Spot :: Law(d, f, p), imap p: Spot :: Law(g, f, p), d, g)
  }

  lemma EnvOfIsLawful(s: Softmax, f: Sampler, d: Model, g: Model)
    requires Implements(s, f) && d.vocab == g.vocab > 0
    ensures var e := EnvOf(s, f, d, g); e.Valid() && e.AreLaws() && Derives(e, f)
  {
    forall p: Spot ensures IsDist(Law(d, f, p)) && IsDist(Law(g, f, p)) {
      LawIsDist(s, f, d, p);
      LawIsDist(s, f, g, p);
    }
  }

  lemma LawIsDist(s: Softmax, f: Sampler, m: Model, p: Spot)
    requires Implements(s, f) && m.vocab > 0
    ensures IsDist(Law(m, f, p))
  {
    DistIsDistribution(s, m.Logits(p));
    assert f.Dist(m.Logits(p)) == Dist(s, m.Logits(p));
  }

  /** Draws strictly inside the unit interval (rand_unit's 0 has probability zero). */
  ghost predicate Inside(tape: seq<real>) {
    forall i :: 0 <= i < |tape| ==> 0.0 < tape[i] < 1.0
  }

  lemma RunReject(s: Softmax, f: Sampler, q: seq<real>, l: seq<real>, acc: seq<Token>, tape: seq<real>, k: nat)
    requires Implements(s, f) && |q| == |l| && IsDist(l) && Inside(tape)
    ensures Run(RejectTree(q, l, acc), tape, k) ==
            Outcome(acc + [f.Replace(q, l, Draw(tape, k))], k + f.ReplaceDraws(q, l))
  {
    var u := Draw(tape, k);
    PickResidualIsPick(q, l, u);
    assert f.Replace(q, l, u) == PickResidual(q, l, u);
    assert f.ReplaceDraws(q, l) == ResidualDraws(q, l) == 1;
  }

  lemma RunCoin(a: real, u: real)
    ensures Pick(Coin(a), u) == if u <= a then 0 else 1
  {
    assert Sum(1, Terms(Coin(a))) == Sum(0, Terms(Coin(a))) + At(Coin(a), 0);
  }

  lemma {:induction false} RunVerify(s: Softmax, f: Sampler, e: Env, p: Spot, ds: seq<Token>, acc: seq<Token>,
                                     tape: seq<real>, k: nat)
    requires Implements(s, f) && s.temperature > 0.0 && e.Valid() && e.AreLaws() && Derives(e, f) && Inside(tape)
    ensures var o := Verdict(e.d, e.g, f, p, ds, tape, k);
            Run(VerifyTree(e, p, ds, acc), tape, k) == Outcome(acc + o.tokens, o.at)
    decreases |ds|
  {
    if |ds| == 0 || !e.g.AcceptsAt(p) {
      assert acc + [] == acc;
    } else {
      var q, l, x := Law(e.d, f, p), Law(e.g, f, p), ds[0];
      assert q == e.dLaw[p] && l == e.gLaw[p];
      RunCoin(AcceptProbability(At(q, x), At(l, x)), Draw(tape, k));
      var v := TurnOf(f, q, l, x, tape, k);
      if v.accept {
        RunVerify(s, f, e, p.Advance(x), ds[1..], acc + [x], tape, k + 1);
        AppendAssociates(acc, [x], Verdict(e.d, e.g, f, p.Advance(x), ds[1..], tape, k + 1).tokens);
      } else {
        RunReject(s, f, q, l, acc, tape, k + 1);
      }
    }
  }

  /** One draft draw steps into the subtree of the proposal it picks. */
  lemma RunDraftStep(s: Softmax, f: Sampler, e: Env, p: Spot, acc: seq<Token>, here: Spot, ds: seq<Token>, n: nat,
                     tape: seq<real>, k: nat) returns (x: Token, here': Spot, ds': seq<Token>)
    requires Implements(s, f) && s.temperature > 0.0 && e.Valid() && Derives(e, f) && n > 0 && e.d.AcceptsAt(here)
    ensures x == f.Pick(Law(e.d, f, here), Draw(tape, k)) && here' == here.Advance(x) && ds' == ds + [x]
    ensures Run(DraftTree(e, p, acc, here, ds, n), tape, k) == Run(DraftTree(e, p, acc, here', ds', n - 1), tape, k + 1)
  {
    var l := Law(e.d, f, here);
    assert l == e.dLaw[here];
    x := f.Pick(l, Draw(tape, k));
    here', ds' := here.Advance(x), ds + [x];
    assert x == Choose(s, l, Draw(tape, k)) == Pick(l, Draw(tape, k));
    var t := DraftTree(e, p, acc, here, ds, n);
    assert t.next[x] == DraftTree(e, p, acc, here', ds', n - 1);
  }

  lemma ProposalsStep(d: Model, f: Sampler, here: Spot, n: nat, tape: seq<real>, k: nat, ds: seq<Token>, x: Token,
                      rest: seq<Token>, here': Spot, ds': seq<Token>) returns (rest': seq<Token>)
    requires f.Keeps() && f.temperature > 0.0 && n > 0 && d.AcceptsAt(here) &&
             x == f.Pick(Law(d, f, here), Draw(tape, k))
    requires rest == Proposals(d, f, here, n, tape, k) && here' == here.Advance(x) && ds' == ds + [x]
    ensures rest' == Proposals(d, f, here', n - 1, tape, k + 1)
    ensures ds + rest == ds' + rest' && |rest| == 1 + |rest'|
  {
    rest' := Proposals(d, f, here', n - 1, tape, k + 1);
    assert rest == [x] + rest';
    AppendAssociates(ds, [x], rest');
  }

  lemma {:induction false} RunDraft(s: Softmax, f: Sampler, e: Env, p: Spot, acc: seq<Token>, here: Spot,
                                    ds: seq<Token>, n: nat, tape: seq<real>, k: nat, rest: seq<Token>,
                                    all: seq<Token>, k1: nat)
    requires Implements(s, f) && s.temperature > 0.0 && e.Valid() && Derives(e, f)
    requires rest == Proposals(e.d, f, here, n, tape, k) && all == ds + rest && k1 == k + |rest|
    ensures Run(DraftTree(e, p, acc, here, ds, n), tape, k) == Run(VerifyTree(e, p, all, acc), tape, k1)
    decreases n
  {
    if n == 0 || !e.d.AcceptsAt(here) {
      assert rest == [];
      EmptyAppends(ds);
    } else {
      var x, here', ds' := RunDraftStep(s, f, e, p, acc, here, ds, n, tape, k);
      var rest' := ProposalsStep(e.d, f, here, n, tape, k, ds, x, rest, here', ds');
      RunDraft(s, f, e, p, acc, here', ds', n - 1, tape, k + 1, rest', all, k1);
    }
  }

  /** On every tape of draws inside the unit interval the window is its tree, run; acc is what came before it. */
  lemma WindowRunsTree(s: Softmax, f: Sampler, e: Env, p: Spot, acc: seq<Token>, n: nat, tape: seq<real>, k: nat)
    requires Implements(s, f) && s.temperature > 0.0 && e.Valid() && e.AreLaws() && Derives(e, f) && Inside(tape)
    ensures var o := Window(e.d, e.g, f, p, n, tape, k);
            Run(WindowTree(e, p, acc, n), tape, k) == Outcome(acc + o.tokens, o.at)
  {
    var ds := Proposals(e.d, f, p, n, tape, k);
    var k1 := k + Drawn(f, |ds|);
    assert Window(e.d, e.g, f, p, n, tape, k) == Verdict(e.d, e.g, f, p, ds, tape, k1);
    EmptyAppends(ds);
    RunDraft(s, f, e, p, acc, p, [], n, tape, k, ds, ds, k1);
    RunVerify(s, f, e, p, ds, acc, tape, k1);
  }
}
