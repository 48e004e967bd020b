/** Distributions over the vocabulary and the inverse-CDF samplers of src/speculative.c.
    Reals stand for floats. */
module TokenDist {
  import opened RealSums

  /** A softmax setting: a table of the exponential, and a temperature (0 or less means greedy).
      A run evaluates finitely many exponentials, so a table covers any exponential function. */
  datatype Softmax = Softmax(table: map<real, real>, temperature: real)
  {
    function Exp(x: real): real {
      if x in table && table[x] > 0.0 then table[x] else 1.0
    }
  }

  /** A setting seen from outside: the law it turns logits into, how it picks a token from a law
      with one unit draw (none is used when greedy), how it replaces a rejected proposal and how
      many draws that takes. Whole windows are stated over these; only the loops that compute
      them look behind. */
  datatype Sampler = Sampler(
    temperature: real,
    dist: imap<seq<real>, seq<real>>,
    pick: imap<(seq<real>, real), nat>,
    replace: imap<(seq<real>, seq<real>, real), nat>,
    draws: imap<(seq<real>, seq<real>), nat>)
  {
    ghost predicate Keeps() {
      (forall l :: l in dist && |dist[l]| == |l|) &&
      (forall p, u :: (p, u) in pick) && (forall p, u :: |p| > 0 ==> pick[(p, u)] < |p|) &&
      (forall d, t, u :: (d, t, u) in replace) && (forall d, t :: (d, t) in draws)
    }

    function Dist(l: seq<real>): (p: seq<real>)
      requires Keeps()
      ensures |p| == |l|
    {
      dist[l]
    }

    function Pick(p: seq<real>, u: real): (x: nat)
      requires Keeps()
      ensures |p| > 0 ==> x < |p|
    {
      pick[(p, u)]
    }

    function Replace(d: seq<real>, t: seq<real>, u: real): (x: nat)
      requires Keeps()
    {
      replace[(d, t, u)]
    }

    function ReplaceDraws(d: seq<real>, t: seq<real>): nat
      requires Keeps()
    {
      draws[(d, t)]
    }
  }

  ghost function DistTable(s: Softmax): imap<seq<real>, seq<real>> {
    imap l: seq<real> :: if |l| == 0 then [] else Dist(s, l)
  }

  ghost function PickTable(s: Softmax): imap<(seq<real>, real), nat> {
    imap k: (seq<real>, real) :: if |k.0| == 0 then 0 else Choose(s, k.0, k.1)
  }

  ghost function ReplaceTable(): imap<(seq<real>, seq<real>, real), nat> {
    imap k: (seq<real>, seq<real>, real) ::
      if |k.0| != |k.1| || |k.1| == 0 then 0 else PickResidual(k.0, k.1, k.2)
  }

  ghost function DrawsTable(): imap<(seq<real>, seq<real>), nat> {
    imap k: (seq<real>, seq<real>) ::
      if |k.0| != |k.1| || |k.1| == 0 then 0 else ResidualDraws(k.0, k.1)
  }

  ghost function SamplerOf(s: Softmax): Sampler {
    Sampler(s.temperature, DistTable(s), PickTable(s), ReplaceTable(), DrawsTable())
  }

  function Choose(s: Softmax, p: seq<real>, u: real): (x: nat)
    requires |p| > 0
    ensures x < |p|
  {
    if s.temperature > 0.0 then Pick(p, u) else ArgMax(p)
  }

  /** f is the outside view of s. */
  ghost predicate Implements(s: Softmax, f: Sampler) {
    s.temperature == f.temperature && f.Keeps() &&
    (forall l {:trigger Dist(s, l)} :: |l| > 0 ==> f.Dist(l) == Dist(s, l)) &&
    (forall p, u {:trigger Choose(s, p, u)} :: |p| > 0 ==> f.Pick(p, u) == Choose(s, p, u)) &&
    (forall d, t, u {:trigger PickResidual(d, t, u)} :: |d| == |t| > 0 ==>
      f.Replace(d, t, u) == PickResidual(d, t, u)) &&
    (forall d, t {:trigger ResidualDraws(d, t)} :: |d| == |t| > 0 ==> f.ReplaceDraws(d, t) == ResidualDraws(d, t))
  }

  lemma SoftmaxImplements(s: Softmax)
    ensures Implements(s, SamplerOf(s))
  {
  }

  ghost predicate IsDist(p: seq<real>) {
    |p| > 0 && (forall i :: 0 <= i < |p| ==> p[i] >= 0.0) && Total(p) == 1.0
  }

  // ----- argmax and softmax -----

  /** The first index holding the largest of the first n logits. */
  function ArgMaxOf(l: seq<real>, n: nat): (b: nat)
    requires 0 < n <= |l|
    ensures b < n
    ensures forall i :: 0 <= i < n ==> l[i] <= l[b]
    ensures forall i :: 0 <= i < b ==> l[i] < l[b]
  {
    if n == 1 then 0 else
      var b := ArgMaxOf(l, n - 1);
      if l[n - 1] > l[b] then n - 1 else b
  }

  function ArgMax(l: seq<real>): (b: nat)
    requires |l| > 0
    ensures b < |l|
  {
    ArgMaxOf(l, |l|)
  }

  function OneHot(n: nat, b: nat): seq<real> {
    seq(n, i => if i == b then 1.0 else 0.0)
  }

  function Weight(s: Softmax, logit: real, mx: real): real
    requires s.temperature > 0.0
  {
    var e := s.Exp((logit - mx) / s.temperature);
    if e < 0.0 then 0.0 else e
  }

  function Weights(s: Softmax, l: seq<real>): (w: seq<real>)
    requires |l| > 0 && s.temperature > 0.0
    ensures |w| == |l|
  {
    seq(|l|, i requires 0 <= i < |l| => Weight(s, l[i], l[ArgMax(l)]))
  }

  function Scaled(w: seq<real>, c: real): (p: seq<real>)
    ensures |p| == |w|
  {
    seq(|w|, i requires 0 <= i < |w| => w[i] * c)
  }

  /** What dist_from_logits leaves in its buffer. */
  function Dist(s: Softmax, l: seq<real>): (p: seq<real>)
    requires |l| > 0
    ensures |p| == |l|
  {
    if s.temperature <= 0.0 then OneHot(|l|, ArgMax(l)) else
      var w := Weights(s, l);
      if Total(w) > 0.0 then Scaled(w, 1.0 / Total(w)) else w
  }

  lemma DistIsDistribution(s: Softmax, l: seq<real>)
    requires |l| > 0
    ensures IsDist(Dist(s, l))
  {
    if s.temperature <= 0.0 {
      OneHotIsDist(|l|, ArgMax(l));
    } else {
      WeightsPositive(s, l);
      NormalizedIsDist(Weights(s, l));
    }
  }

  lemma OneHotIsDist(n: nat, b: nat)
    requires b < n
    ensures IsDist(OneHot(n, b))
  {
    SumSingle(n, Terms(OneHot(n, b)), b);
  }

  lemma WeightsPositive(s: Softmax, l: seq<real>)
    requires |l| > 0 && s.temperature > 0.0
    ensures forall i :: 0 <= i < |l| ==> Weights(s, l)[i] >= 0.0
    ensures Total(Weights(s, l)) > 0.0
  {
    var w, b := Weights(s, l), ArgMax(l);
    assert (l[b] - l[b]) / s.temperature == 0.0;
    assert w[b] == Weight(s, l[b], l[b]) > 0.0;
    SumAtLeastTerm(|w|, Terms(w), b);
  }

  lemma NormalizedIsDist(w: seq<real>)
    requires Total(w) > 0.0 && forall i :: 0 <= i < |w| ==> w[i] >= 0.0
    ensures IsDist(Scaled(w, 1.0 / Total(w)))
  {
    ScaledTotal(w, 1.0 / Total(w));
    var p := Scaled(w, 1.0 / Total(w));
    forall i | 0 <= i < |w| ensures p[i] >= 0.0 {
      ProductNonNegative(w[i], 1.0 / Total(w));
    }
  }

  lemma ProductNonNegative(x: real, y: real)
    requires x >= 0.0 && y >= 0.0
    ensures x * y >= 0.0
  {
  }

  lemma ScaledTotal(w: seq<real>, c: real)
    ensures Total(Scaled(w, c)) == c * Total(w)
  {
    SumScale(|w|, c, Terms(w), Terms(Scaled(w, c)));
  }

  /** Greedy decoding: at temperature 0 the distribution's argmax is the argmax of the logits. */
  lemma GreedyArgMax(s: Softmax, l: seq<real>)
    requires |l| > 0 && s.temperature <= 0.0
    ensures ArgMax(Dist(s, l)) == ArgMax(l)
    ensures Dist(s, l)[ArgMax(l)] == 1.0
  {
    var p, b := Dist(s, l), ArgMax(l);
    assert p[b] == 1.0;
  }

  /** The largest of the logits. */
  ghost predicate IsLargest(l: seq<real>, mx: real) {
    mx in l && forall i :: 0 <= i < |l| ==> l[i] <= mx
  }

  /** What a law above temperature 0 must be: any two probabilities stand as the exponentials of their logits, each
      less the largest one and divided by the temperature. */
  ghost predicate SoftmaxRatios(s: Softmax, l: seq<real>, mx: real, p: seq<real>)
    requires s.temperature > 0.0 && |p| == |l|
  {
    forall i, j :: 0 <= i < |l| && 0 <= j < |l| ==> Ratio(s, l[i], l[j], mx, p[i], p[j])
  }

  predicate Ratio(s: Softmax, li: real, lj: real, mx: real, pi: real, pj: real)
    requires s.temperature > 0.0
  {
    Cross(pi, s.Exp((lj - mx) / s.temperature), pj, s.Exp((li - mx) / s.temperature))
  }

  predicate Cross(a: real, b: real, c: real, d: real) {
    a * b == c * d
  }

  /** The law has the ratios of the exponentials, and is the only law that has them. */
  lemma DistIsSoftmax(s: Softmax, l: seq<real>, mx: real, p: seq<real>)
    requires |p| == |l| > 0 && s.temperature > 0.0 && IsLargest(l, mx)
    ensures p == Dist(s, l) <==> IsDist(p) && SoftmaxRatios(s, l, mx, p)
  {
    var w := Weights(s, l);
    WeightsPositive(s, l);
    DistIsDistribution(s, l);
    forall i, j | 0 <= i < |l| && 0 <= j < |l|
      ensures Ratio(s, l[i], l[j], mx, p[i], p[j]) <==> Alike(p, w, i, j) {
      RatiosOfWeights(s, l, mx, p, i, j);
    }
    ScaledIsAlike(w, p);
  }

  /** Entries that sum to one are w over its total if and only if they stand as those of w. */
  lemma ScaledIsAlike(w: seq<real>, p: seq<real>)
    requires |p| == |w| && Total(w) > 0.0
    ensures p == Scaled(w, 1.0 / Total(w)) ==> forall i, j :: 0 <= i < |w| && 0 <= j < |w| ==> Alike(p, w, i, j)
    ensures Total(p) == 1.0 && (forall i, j :: 0 <= i < |w| && 0 <= j < |w| ==> Alike(p, w, i, j)) ==>
            p == Scaled(w, 1.0 / Total(w))
  {
    if p == Scaled(w, 1.0 / Total(w)) {
      forall i, j | 0 <= i < |w| && 0 <= j < |w| ensures Alike(p, w, i, j) {
        CrossScaled(w[i], w[j], 1.0 / Total(w));
      }
    } else if Total(p) == 1.0 && (forall i, j :: 0 <= i < |w| && 0 <= j < |w| ==> Alike(p, w, i, j)) {
      RatiosFix(w, p);
    }
  }

  /** Two entries of p stand as those of w. */
  predicate Alike(p: seq<real>, w: seq<real>, i: nat, j: nat)
    requires i < |p| == |w| && j < |p|
  {
    Cross(p[i], w[j], p[j], w[i])
  }

  lemma RatiosOfWeights(s: Softmax, l: seq<real>, mx: real, p: seq<real>, i: nat, j: nat)
    requires |p| == |l| > 0 && s.temperature > 0.0 && IsLargest(l, mx) && i < |l| && j < |l|
    ensures Ratio(s, l[i], l[j], mx, p[i], p[j]) <==> Alike(p, Weights(s, l), i, j)
  {
    var w := Weights(s, l);
    WeightIsExp(s, l, mx);
    assert w[i] == s.Exp((l[i] - mx) / s.temperature) && w[j] == s.Exp((l[j] - mx) / s.temperature);
  }

  lemma WeightIsExp(s: Softmax, l: seq<real>, mx: real)
    requires |l| > 0 && s.temperature > 0.0 && IsLargest(l, mx)
    ensures forall i :: 0 <= i < |l| ==> Weights(s, l)[i] == s.Exp((l[i] - mx) / s.temperature)
  {
    assert l[ArgMax(l)] == mx;
  }

  /** Entries that sum to one and stand as those of w are w over its total. */
  lemma RatiosFix(w: seq<real>, p: seq<real>)
    requires |p| == |w| && Total(p) == 1.0 && Total(w) > 0.0
    requires forall i, j :: 0 <= i < |w| && 0 <= j < |w| ==> Alike(p, w, i, j)
    ensures p == Scaled(w, 1.0 / Total(w))
  {
    forall i | 0 <= i < |w| ensures p[i] == Scaled(w, 1.0 / Total(w))[i] {
      forall j | 0 <= j < |w| ensures Scaled(w, p[i])[j] == Scaled(p, w[i])[j] {
        assert Alike(p, w, i, j);
      }
      assert Scaled(w, p[i]) == Scaled(p, w[i]);
      ScaledTotal(w, p[i]);
      ScaledTotal(p, w[i]);
      ShareOf(p[i], w[i], Total(w));
    }
  }

  lemma ShareOf(p: real, w: real, total: real)
    requires total > 0.0 && p * total == w
    ensures p == w * (1.0 / total)
  {
  }

  lemma CrossScaled(a: real, b: real, c: real)
    ensures (a * c) * b == (b * c) * a
  {
  }

  /** Where the exponential grows, a token is the likelier the larger its logit. */
  lemma LikelierIsLarger(s: Softmax, l: seq<real>, mx: real, i: nat, j: nat)
    requires i < |l| && j < |l| && s.temperature > 0.0 && IsLargest(l, mx)
    requires l[i] < l[j] ==> s.Exp((l[i] - mx) / s.temperature) < s.Exp((l[j] - mx) / s.temperature)
    requires l[j] < l[i] ==> s.Exp((l[j] - mx) / s.temperature) < s.Exp((l[i] - mx) / s.temperature)
    ensures Dist(s, l)[i] <= Dist(s, l)[j] <==> l[i] <= l[j]
  {
    var w := Weights(s, l);
    WeightIsExp(s, l, mx);
    WeightsPositive(s, l);
    if l[i] < l[j] {
      ScaledOrder(w, 1.0 / Total(w), i, j);
    } else if l[j] < l[i] {
      ScaledOrder(w, 1.0 / Total(w), j, i);
    }
  }

  lemma ScaledOrder(w: seq<real>, c: real, i: nat, j: nat)
    requires c > 0.0 && i < |w| && j < |w| && w[i] < w[j]
    ensures Scaled(w, c)[i] < Scaled(w, c)[j]
  {
    assert (w[j] - w[i]) * c > 0.0;
  }

  // ----- sampling by inverse CDF -----

  /** sample_from: the first index whose cumulative mass reaches r, the last index if none does. */
  function PickFrom(p: seq<real>, r: real, i: nat): (x: nat)
    requires i < |p|
    ensures i <= x < |p|
    decreases |p| - i
  {
    if Sum(i + 1, Terms(p)) >= r || i + 1 == |p| then i else PickFrom(p, r, i + 1)
  }

  function Pick(p: seq<real>, r: real): (x: nat)
    requires |p| > 0
    ensures x < |p|
  {
    PickFrom(p, r, 0)
  }

  function Residual(draft: seq<real>, target: seq<real>): (r: seq<real>)
    requires |draft| == |target|
    ensures |r| == |target|
  {
    seq(|target|, i requires 0 <= i < |target| =>
      if target[i] - draft[i] > 0.0 then target[i] - draft[i] else 0.0)
  }

  /** sample_residual's second scan: like PickFrom, but zero entries are skipped and the
      fallback is token 0. */
  function PickPositive(p: seq<real>, r: real, i: nat): (x: nat)
    requires |p| > 0 && i <= |p|
    ensures x < |p|
    decreases |p| - i
  {
    if i == |p| then 0
    else if p[i] > 0.0 && Sum(i + 1, Terms(p)) >= r then i
    else PickPositive(p, r, i + 1)
  }

  function ResidualDraws(draft: seq<real>, target: seq<real>): nat
    requires |draft| == |target| > 0
  {
    if Total(Residual(draft, target)) > 0.0 || Total(target) > 0.0 then 1 else 0
  }

  /** A unit draw stretched to a total mass. */
  function Stretch(u: real, total: real): real {
    u * total
  }

  /** What sample_residual returns for the unit draw u. */
  function PickResidual(draft: seq<real>, target: seq<real>, u: real): (x: nat)
    requires |draft| == |target| > 0
    ensures x < |target|
  {
    var res := Residual(draft, target);
    if Total(res) > 0.0 then PickPositive(res, Stretch(u, Total(res)), 0)
    else if Total(target) > 0.0 then Pick(target, Stretch(u, Total(target)))
    else 0
  }

  /** The distribution a rejected proposal is replaced from. */
  function ResidualLaw(draft: seq<real>, target: seq<real>): (p: seq<real>)
    requires |draft| == |target| > 0
    ensures |p| == |target|
  {
    var res := Residual(draft, target);
    if Total(res) > 0.0 then Scaled(res, 1.0 / Total(res)) else target
  }

  /** Inverse-CDF sampling gives token x exactly the draws of an interval of length p[x]; the one draw 0 goes to
      token 0. */
  lemma PickInterval(p: seq<real>, r: real, x: nat)
    requires IsDist(p) && 0.0 <= r <= 1.0 && x < |p|
    ensures Pick(p, r) == x <==> Sum(x, Terms(p)) < r <= Sum(x + 1, Terms(p)) || (r == 0.0 && x == 0)
    ensures Sum(x + 1, Terms(p)) - Sum(x, Terms(p)) == p[x]
  {
    if r > 0.0 {
      PickFromInterval(p, r, 0, x);
    } else {
      PrefixMonotone(p, 0, 1);
      PrefixMonotone(p, 0, x);
    }
  }

  lemma {:induction false} PickFromInterval(p: seq<real>, r: real, i: nat, x: nat)
    requires IsDist(p) && r <= 1.0 && i <= x < |p|
    requires Sum(i, Terms(p)) < r
    ensures PickFrom(p, r, i) == x <==> Sum(x, Terms(p)) < r <= Sum(x + 1, Terms(p))
    decreases |p| - i
  {
    if i < x {
      PrefixMonotone(p, i + 1, x);
      if Sum(i + 1, Terms(p)) < r {
        PickFromInterval(p, r, i + 1, x);
      }
    } else {
      if Sum(i + 1, Terms(p)) < r && i + 1 < |p| {
        assert PickFrom(p, r, i) >= i + 1;
      }
    }
  }

  lemma {:induction false} PrefixMonotone(p: seq<real>, i: nat, j: nat)
    requires i <= j <= |p|
    requires forall k :: 0 <= k < |p| ==> p[k] >= 0.0
    ensures Sum(i, Terms(p)) <= Sum(j, Terms(p))
    decreases j - i
  {
    if i < j {
      PrefixMonotone(p, i, j - 1);
    }
  }

  lemma ResidualLawIsDistribution(draft: seq<real>, target: seq<real>)
    requires |draft| == |target| && IsDist(target)
    ensures IsDist(ResidualLaw(draft, target))
  {
    if Total(Residual(draft, target)) > 0.0 {
      NormalizedIsDist(Residual(draft, target));
    }
  }

  /** For every draw of rand_unit, sample_residual is inverse-CDF sampling of the residual law; the one draw 0 goes to
      the first token with an excess, which is the law's token 0 only if that has one. */
  lemma PickResidualIsPick(draft: seq<real>, target: seq<real>, u: real)
    requires |draft| == |target| && IsDist(target) && 0.0 <= u < 1.0
    ensures PickResidual(draft, target, u) == Pick(ResidualLaw(draft, target), u) <==>
            u > 0.0 || Total(Residual(draft, target)) == 0.0 || Residual(draft, target)[0] > 0.0
  {
    var res := Residual(draft, target);
    var z := Total(res);
    PrefixMonotone(res, 0, |res|);
    if z == 0.0 {
      assert Stretch(u, Total(target)) == u;
    } else if u > 0.0 {
      FractionBounds(u, z);
      PickPositiveScaled(res, u, 0);
    } else {
      PickPositiveAtZero(res, 0);
      ResidualLawIsDistribution(draft, target);
      PickInterval(ResidualLaw(draft, target), 0.0, 0);
    }
  }

  /** The draw 0 picks the first positive entry. */
  lemma {:induction false} PickPositiveAtZero(res: seq<real>, i: nat)
    requires i < |res| && Sum(i, Terms(res)) < Total(res) && forall k :: 0 <= k < |res| ==> res[k] >= 0.0
    ensures var x := PickPositive(res, 0.0, i); x >= i && res[x] > 0.0 && (x == i <==> res[i] > 0.0)
    decreases |res| - i
  {
    PrefixMonotone(res, 0, i + 1);
    if res[i] == 0.0 {
      assert Sum(i + 1, Terms(res)) == Sum(i, Terms(res)) + res[i];
      PickPositiveAtZero(res, i + 1);
    }
  }

  lemma FractionBounds(u: real, z: real)
    requires 0.0 < u < 1.0 && z > 0.0
    ensures Stretch(u, z) > 0.0 && Stretch(u, z) < z
  {
    var gap := (1.0 - u) * z;
    assert gap > 0.0;
    assert gap == z - Stretch(u, z);
  }

  lemma {:induction false} PickPositiveScaled(res: seq<real>, u: real, i: nat)
    requires i < |res| && Total(res) > 0.0 && 0.0 < u < 1.0
    requires forall k :: 0 <= k < |res| ==> res[k] >= 0.0
    requires Sum(i, Terms(res)) < Stretch(u, Total(res))
    ensures PickPositive(res, Stretch(u, Total(res)), i) == PickFrom(Scaled(res, 1.0 / Total(res)), u, i)
    decreases |res| - i
  {
    var z := Total(res);
    var p := Scaled(res, 1.0 / z);
    var here := Sum(i + 1, Terms(res));
    SumScale(i + 1, 1.0 / z, Terms(res), Terms(p));
    ScaledBound(here, u, z);
    FractionBounds(u, z);
    assert Sum(i + 1, Terms(p)) >= u <==> here >= Stretch(u, z);
    if here >= Stretch(u, z) {
      assert res[i] > 0.0;
    } else {
      PickPositiveScaled(res, u, i + 1);
    }
  }

  lemma ScaledBound(s: real, u: real, z: real)
    requires z > 0.0
    ensures (1.0 / z) * s >= u <==> s >= Stretch(u, z)
  {
    var t := (1.0 / z) * s;
    var gap := (t - u) * z;
    assert t * z == s;
    assert gap == s - Stretch(u, z);
    if t >= u {
      assert gap >= 0.0;
    } else {
      assert gap < 0.0;
    }
  }

  // ----- the loops -----

  /** dist_from_logits fills the caller's buffer. */
  method DistFromLogits(s: Softmax, logits: array<real>, p: array<real>)
    requires 0 < logits.Length == p.Length && p != logits
    modifies p
    ensures p[..] == Dist(s, logits[..])
  {
    if s.temperature <= 0.0 {
      OneHotInto(logits, p);
    } else {
      SoftmaxInto(s, logits, p);
    }
  }

  method OneHotInto(logits: array<real>, p: array<real>)
    requires 0 < logits.Length == p.Length && p != logits
    modifies p
    ensures p[..] == OneHot(p.Length, ArgMax(logits[..]))
  {
    var n := logits.Length;
    for i := 0 to n
      invariant forall k :: 0 <= k < i ==> p[k] == 0.0
    {
      p[i] := 0.0;
    }
    var best, bv := 0, logits[0];
    for i := 1 to n
      invariant best == ArgMaxOf(logits[..], i) && bv == logits[best]
    {
      if logits[i] > bv {
        bv, best := logits[i], i;
      }
    }
    p[best] := 1.0;
  }

  method SoftmaxInto(s: Softmax, logits: array<real>, p: array<real>)
    requires 0 < logits.Length == p.Length && p != logits && s.temperature > 0.0
    modifies p
    ensures p[..] == Dist(s, logits[..])
  {
    var mx := Largest(logits);
    ghost var l, w := logits[..], Weights(s, logits[..]);
    var total := 0.0;
    for i := 0 to logits.Length
      invariant forall k :: 0 <= k < i ==> p[k] == w[k]
      invariant total == Sum(i, Terms(w))
    {
      p[i] := Weight(s, logits[i], mx);
      assert logits[i] == l[i] && p[i] == w[i];
      total := total + p[i];
    }
    assert p[..] == w;
    if total > 0.0 {
      ScaleInto(p, 1.0 / total);
    }
  }

  method Largest(logits: array<real>) returns (mx: real)
    requires logits.Length > 0
    ensures mx == logits[ArgMax(logits[..])]
  {
    mx := logits[0];
    for i := 1 to logits.Length
      invariant mx == logits[ArgMaxOf(logits[..], i)]
    {
      if logits[i] > mx {
        mx := logits[i];
      }
    }
  }

  method ScaleInto(p: array<real>, inv: real)
    modifies p
    ensures p[..] == Scaled(old(p[..]), inv)
  {
    ghost var w := p[..];
    for i := 0 to p.Length
      invariant forall k :: 0 <= k < i ==> p[k] == Scaled(w, inv)[k]
      invariant forall k :: i <= k < p.Length ==> p[k] == w[k]
    {
      p[i] := p[i] * inv;
    }
  }

  /** Draw k of a tape of unit draws. Past its end the tape reads 1/2; a window reads finitely many
      draws, so every run is covered by a long enough tape. */
  function Draw(tape: seq<real>, k: nat): real {
    if k < |tape| then tape[k] else 0.5
  }

  /** The generator behind rand_unit, reading a tape. */
  class Rng {
    const tape: seq<real>
    var at: nat

    constructor (tape: seq<real>)
      ensures this.tape == tape && at == 0
    {
      this.tape := tape;
      at := 0;
    }

    method RandUnit() returns (u: real)
      modifies this
      ensures u == Draw(tape, old(at)) && at == old(at) + 1
    {
      u := Draw(tape, at);
      at := at + 1;
    }
  }

  method SampleFrom(p: array<real>, rng: Rng) returns (x: nat)
    requires p.Length > 0
    modifies rng
    ensures x == Pick(p[..], Draw(rng.tape, old(rng.at))) && rng.at == old(rng.at) + 1
  {
    var r := rng.RandUnit();
    x := ScanFrom(p, r);
  }

  /** The cumulative scan of sample_from and of sample_residual's fallback. */
  method ScanFrom(p: array<real>, r: real) returns (x: nat)
    requires p.Length > 0
    ensures x == Pick(p[..], r)
  {
    ghost var ps := p[..];
    var acc := 0.0;
    for i := 0 to p.Length
      invariant acc == Sum(i, Terms(ps))
      invariant Pick(ps, r) == if i < p.Length then PickFrom(ps, r, i) else p.Length - 1
    {
      acc := acc + p[i];
      if acc >= r {
        return i;
      }
    }
    return p.Length - 1;
  }

  /** The scan over max(0, target - draft). */
  method ScanResidual(draft: array<real>, target: array<real>, r: real) returns (x: nat)
    requires draft.Length == target.Length > 0
    ensures x == PickPositive(Residual(draft[..], target[..]), r, 0)
  {
    ghost var res := Residual(draft[..], target[..]);
    var acc := 0.0;
    for i := 0 to target.Length
      invariant acc == Sum(i, Terms(res))
      invariant PickPositive(res, r, 0) == PickPositive(res, r, i)
    {
      var d := target[i] - draft[i];
      if d > 0.0 {
        acc := acc + d;
        if acc >= r {
          return i;
        }
      }
    }
    return 0;
  }

  method TotalOf(p: array<real>) returns (total: real)
    ensures total == Total(p[..])
  {
    total := 0.0;
    for i := 0 to p.Length
      invariant total == Sum(i, Terms(p[..]))
    {
      total := total + p[i];
    }
  }

  method SampleResidual(draft: array<real>, target: array<real>, rng: Rng) returns (x: nat)
    requires draft.Length == target.Length > 0
    modifies rng
    ensures x == PickResidual(draft[..], target[..], Draw(rng.tape, old(rng.at)))
    ensures rng.at == old(rng.at) + ResidualDraws(draft[..], target[..])
  {
    ghost var d, t := draft[..], target[..];
    ghost var res := Residual(d, t);
    var total := 0.0;
    for i := 0 to target.Length
      invariant total == Sum(i, Terms(res))
    {
      var r := target[i] - draft[i];
      if r > 0.0 {
        total := total + r;
      }
    }
    if !(total > 0.0) {
      total := TotalOf(target);
      if !(total > 0.0) {
        return 0;
      }
      var u := rng.RandUnit();
      x := ScanFrom(target, Stretch(u, total));
    } else {
      var u := rng.RandUnit();
      x := ScanResidual(draft, target, Stretch(u, total));
    }
    assert draft[..] == d && target[..] == t;
  }
}
