/** What a draft/verify window of src/speculative.c computes, as a function of the two models, the
    sampler and a tape of unit draws. */
module SpeculativeSpec {
  import opened RealSums
  import opened TokenDist
  import opened DecoderGraph

  /** A model's next-token law at a spot. */
  function Law(m: Model, f: Sampler, p: Spot): (law: seq<real>)
    requires f.Keeps()
    ensures |law| == m.vocab
  {
    f.Dist(m.Logits(p))
  }

  /** The proposal count of lines 94-97. */
  function DraftCount(nDraft: int, maxAccepted: int): int {
    var n := if nDraft <= 0 then 4 else nDraft;
    var n' := if n > 64 then 64 else n;
    if n' > maxAccepted then maxAccepted else n'
  }

  /** The largest count within 64, within the output and within what was asked for, 4 if nothing was. */
  lemma DraftCountIsLargest(nDraft: int, maxAccepted: int, n: int)
    ensures n <= DraftCount(nDraft, maxAccepted) <==>
            n <= 64 && n <= maxAccepted && n <= if nDraft > 0 then nDraft else 4
  {
  }

  /** Draws consumed by n proposals. */
  function Drawn(f: Sampler, n: nat): nat {
    if f.temperature > 0.0 then n else 0
  }

  /** The draft phase: up to n proposals, cut short where the draft graph refuses to decode. */
  function Proposals(d: Model, f: Sampler, p: Spot, n: nat, tape: seq<real>, k: nat): (ds: seq<Token>)
    requires f.Keeps()
    ensures |ds| <= n
    decreases n
  {
    if n == 0 || !d.AcceptsAt(p) then [] else
      var x := f.Pick(Law(d, f, p), Draw(tape, k));
      [x] + Proposals(d, f, p.Advance(x), n - 1, tape, k + Drawn(f, 1))
  }

  function AcceptProbability(q: real, p: real): real {
    if q > 0.0 then (if p / q < 1.0 then p / q else 1.0) else 1.0
  }

  /** One verify turn on proposal x: whether it stands, the token written, the next unread draw. */
  datatype Turn = Turn(accept: bool, token: Token, at: nat)

  function TurnOf(f: Sampler, q: seq<real>, p: seq<real>, x: Token, tape: seq<real>, k: nat): (v: Turn)
    requires f.Keeps()
    ensures v.accept ==> v.token == x
  {
    if f.temperature <= 0.0 then
      var best := f.Pick(p, Draw(tape, k));
      Turn(x == best, best, k)
    else if Draw(tape, k) <= AcceptProbability(At(q, x), At(p, x)) then Turn(true, x, k + 1)
    else Turn(false, f.Replace(q, p, Draw(tape, k + 1)), k + 1 + f.ReplaceDraws(q, p))
  }

  /** A window's outcome: the tokens written and the next unread draw. */
  datatype Outcome = Outcome(tokens: seq<Token>, at: nat)

  /** The verify phase over the proposals ds, starting at spot p. */
  function Verdict(d: Model, g: Model, f: Sampler, p: Spot, ds: seq<Token>, tape: seq<real>, k: nat): (o: Outcome)
    requires f.Keeps()
    ensures |o.tokens| <= |ds|
    decreases |ds|
  {
    if |ds| == 0 || !g.AcceptsAt(p) then Outcome([], k) else
      var v := TurnOf(f, Law(d, f, p), Law(g, f, p), ds[0], tape, k);
      if !v.accept then Outcome([v.token], v.at) else
        var o := Verdict(d, g, f, p.Advance(v.token), ds[1..], tape, v.at);
        Outcome([v.token] + o.tokens, o.at)
  }

  /** A whole window at spot p, reading draws from k on. */
  function Window(d: Model, g: Model, f: Sampler, p: Spot, n: nat, tape: seq<real>, k: nat): (o: Outcome)
    requires f.Keeps()
    ensures |o.tokens| <= n
  {
    var ds := Proposals(d, f, p, n, tape, k);
    Verdict(d, g, f, p, ds, tape, k + Drawn(f, |ds|))
  }

  lemma AppendAssociates<T>(a: seq<T>, b: seq<T>, c: seq<T>)
    ensures a + (b + c) == (a + b) + c
  {
  }

  lemma EmptyAppends<T>(a: seq<T>)
    ensures [] + a == a && a + [] == a
  {
  }

  // ----- the draft loop's invariant -----

  /** Every proposal was drafted at its own spot, and qs holds the probability the draft gave it. */
  ghost predicate Remembers(d: Model, f: Sampler, p: Spot, ds: seq<Token>, qs: seq<real>)
    requires f.Keeps()
    decreases |ds|
  {
    |qs| == |ds| &&
    (|ds| > 0 ==>
       ds[0] < d.vocab && d.AcceptsAt(p) && qs[0] == At(Law(d, f, p), ds[0]) &&
       Remembers(d, f, p.Advance(ds[0]), ds[1..], qs[1..]))
  }

  lemma {:induction false} RemembersSnoc(d: Model, f: Sampler, p: Spot, ds: seq<Token>, qs: seq<real>, x: Token,
                                         q: real)
    requires f.Keeps() && Remembers(d, f, p, ds, qs)
    requires x < d.vocab && d.AcceptsAt(After(p, ds)) && q == At(Law(d, f, After(p, ds)), x)
    ensures Remembers(d, f, p, ds + [x], qs + [q])
    decreases |ds|
  {
    if |ds| == 0 {
      assert (ds + [x])[1..] == [] && (qs + [q])[1..] == [];
    } else {
      assert (ds + [x])[1..] == ds[1..] + [x] && (qs + [q])[1..] == qs[1..] + [q];
      RemembersSnoc(d, f, p.Advance(ds[0]), ds[1..], qs[1..], x, q);
    }
  }

  /** What the draft phase remembered about proposal i. */
  lemma {:induction false} RememberedAt(d: Model, f: Sampler, p: Spot, ds: seq<Token>, qs: seq<real>, i: nat)
    requires f.Keeps() && Remembers(d, f, p, ds, qs) && i < |ds|
    ensures var here := After(p, ds[..i]);
            ds[i] < d.vocab && d.AcceptsAt(here) && qs[i] == At(Law(d, f, here), ds[i]) &&
            here.hist + [here.feed] <= After(p, ds).hist
    decreases i
  {
    if i == 0 {
      assert ds[..0] == [];
      AfterGrows(p, ds);
    } else {
      RememberedAt(d, f, p.Advance(ds[0]), ds[1..], qs[1..], i - 1);
      assert ds[..i][1..] == ds[1..][..i - 1];
    }
  }

  /** ds are the proposals made so far, the next one belongs at `here` and draw k. */
  ghost predicate Drafted(d: Model, f: Sampler, all: seq<Token>, n: nat, tape: seq<real>, ds: seq<Token>, here: Spot,
                          k: nat)
    requires f.Keeps()
  {
    |ds| <= n && all == ds + Proposals(d, f, here, n - |ds|, tape, k)
  }

  lemma DraftedOneMore(d: Model, f: Sampler, all: seq<Token>, n: nat, tape: seq<real>, ds: seq<Token>, here: Spot,
                       k: nat, x: Token)
    requires f.Keeps() && |ds| < n && Drafted(d, f, all, n, tape, ds, here, k) && d.AcceptsAt(here)
    requires x == f.Pick(Law(d, f, here), Draw(tape, k))
    ensures Drafted(d, f, all, n, tape, ds + [x], here.Advance(x), k + Drawn(f, 1))
  {
    var rest := Proposals(d, f, here.Advance(x), n - |ds| - 1, tape, k + Drawn(f, 1));
    assert Proposals(d, f, here, n - |ds|, tape, k) == [x] + rest;
    AppendAssociates(ds, [x], rest);
    assert n - |ds + [x]| == n - |ds| - 1;
  }

  lemma DraftedAll(d: Model, f: Sampler, all: seq<Token>, n: nat, tape: seq<real>, ds: seq<Token>, here: Spot, k: nat)
    requires f.Keeps() && Drafted(d, f, all, n, tape, ds, here, k)
    requires |ds| == n || !d.AcceptsAt(here)
    ensures ds == all
  {
    assert Proposals(d, f, here, n - |ds|, tape, k) == [];
  }

  // ----- the verify loop's invariant -----

  /** The proposals before `rest` stood as acc, and the window will end in outcome o. */
  ghost predicate Stood(d: Model, g: Model, f: Sampler, o: Outcome, tape: seq<real>, acc: seq<Token>,
                        rest: seq<Token>, here: Spot, k: nat)
    requires f.Keeps()
  {
    var r := Verdict(d, g, f, here, rest, tape, k);
    o == Outcome(acc + r.tokens, r.at)
  }

  lemma StoodOneMore(d: Model, g: Model, f: Sampler, o: Outcome, tape: seq<real>, acc: seq<Token>, rest: seq<Token>,
                     here: Spot, k: nat, v: Turn)
    requires f.Keeps() && |rest| > 0 && Stood(d, g, f, o, tape, acc, rest, here, k) && g.AcceptsAt(here)
    requires v == TurnOf(f, Law(d, f, here), Law(g, f, here), rest[0], tape, k)
    ensures v.accept ==> Stood(d, g, f, o, tape, acc + [v.token], rest[1..], here.Advance(v.token), v.at)
    ensures !v.accept ==> o == Outcome(acc + [v.token], v.at)
  {
    if v.accept {
      var r := Verdict(d, g, f, here.Advance(v.token), rest[1..], tape, v.at);
      AppendAssociates(acc, [v.token], r.tokens);
    }
  }

  lemma StoodAll(d: Model, g: Model, f: Sampler, o: Outcome, tape: seq<real>, acc: seq<Token>, rest: seq<Token>,
                 here: Spot, k: nat)
    requires f.Keeps() && Stood(d, g, f, o, tape, acc, rest, here, k)
    requires |rest| == 0 || !g.AcceptsAt(here)
    ensures o == Outcome(acc, k)
  {
    assert acc + [] == acc;
  }
}
