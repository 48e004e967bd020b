/** The arithmetic behind speculative sampling: accepting with probability min(1, p/q) and otherwise
    drawing from the residual of two laws weighs every token exactly as the target law p does. */
module ResidualIdentity {
  import opened RealSums
  import opened TokenDist
  import opened SpeculativeSpec

  /** The expectation of the values v under the weights a, over the first n tokens. */
  function Dot(a: seq<real>, v: seq<real>, n: nat): real {
    if n == 0 then 0.0 else Dot(a, v, n - 1) + Product(At(a, n - 1), At(v, n - 1))
  }

  function Mean(a: seq<real>, v: seq<real>): real {
    Dot(a, v, |a|)
  }

  function Product(x: real, y: real): real {
    x * y
  }

  /** What a proposal x is worth: t[x] if it stands, the residual's mean r if it does not. */
  function Worth(q: real, p: real, t: real, r: real): real {
    Product(AcceptProbability(q, p), t) + Product(1.0 - AcceptProbability(q, p), r)
  }

  function Worths(q: seq<real>, p: seq<real>, t: seq<real>, r: real): (w: seq<real>)
    ensures |w| == |q|
  {
    seq(|q|, i requires 0 <= i < |q| => Worth(q[i], At(p, i), At(t, i), r))
  }

  function Lesser(q: real, p: real): real {
    if p < q then p else q
  }

  function Excess(q: real, p: real): real {
    if p - q > 0.0 then p - q else 0.0
  }

  lemma AcceptedMass(q: real, p: real)
    requires q >= 0.0 && p >= 0.0
    ensures Product(q, AcceptProbability(q, p)) == Lesser(q, p)
    ensures p == Lesser(q, p) + Excess(q, p)
    ensures q == 0.0 ==> AcceptProbability(q, p) == 1.0
  {
    if q > 0.0 {
      Ratio(q, p);
    }
  }

  lemma Ratio(q: real, p: real)
    requires q > 0.0
    ensures Product(q, p / q) == p && (p / q < 1.0 <==> p < q)
  {
    var s := p / q;
    assert s * q == p;
    assert (1.0 - s) * q == q - p;
    SignOfProduct(1.0 - s, q);
  }

  lemma SignOfProduct(x: real, q: real)
    requires q > 0.0
    ensures x > 0.0 <==> x * q > 0.0
  {
    if x <= 0.0 {
      assert (0.0 - x) * q >= 0.0;
    }
  }

  /** One token's share of the expectation, split into kept and redistributed mass. */
  lemma WorthShare(q: real, p: real, t: real, r: real)
    requires q >= 0.0 && p >= 0.0
    ensures Product(q, Worth(q, p, t, r)) == Product(Lesser(q, p), t) + Product(q - Lesser(q, p), r)
  {
    AcceptedMass(q, p);
    var a := AcceptProbability(q, p);
    Distribute(q, a, t, r);
  }

  lemma Distribute(q: real, a: real, t: real, r: real)
    ensures Product(q, Product(a, t) + Product(1.0 - a, r)) == Product(Product(q, a), t) + Product(q - Product(q, a), r)
  {
    assert q * (a * t + (1.0 - a) * r) == (q * a) * t + (q - q * a) * r;
  }

  lemma ProductAdds(x: real, y: real, z: real)
    ensures Product(x + y, z) == Product(x, z) + Product(y, z)
  {
  }

  ghost predicate NonNegative(a: seq<real>) {
    forall i :: 0 <= i < |a| ==> a[i] >= 0.0
  }

  /** Summing the shares: kept mass keeps its value, the rest is worth r. */
  lemma {:induction false} WorthSum(q: seq<real>, p: seq<real>, t: seq<real>, r: real, n: nat, low: seq<real>)
    requires |q| == |p| == |low| && n <= |q| && NonNegative(q) && NonNegative(p)
    requires forall i :: 0 <= i < |q| ==> low[i] == Lesser(q[i], p[i])
    ensures Dot(q, Worths(q, p, t, r), n) == Dot(low, t, n) + Product(Sum(n, Terms(q)) - Sum(n, Terms(low)), r)
  {
    if n > 0 {
      WorthSum(q, p, t, r, n - 1, low);
      WorthShare(q[n - 1], p[n - 1], At(t, n - 1), r);
      ProductAdds(Sum(n - 1, Terms(q)) - Sum(n - 1, Terms(low)), q[n - 1] - low[n - 1], r);
    }
  }

  /** The target law is the kept mass plus the residual. */
  lemma {:induction false} TargetSplits(q: seq<real>, p: seq<real>, t: seq<real>, n: nat, low: seq<real>)
    requires |q| == |p| == |low| && n <= |q| && NonNegative(q) && NonNegative(p)
    requires forall i :: 0 <= i < |q| ==> low[i] == Lesser(q[i], p[i])
    ensures Dot(p, t, n) == Dot(low, t, n) + Dot(Residual(q, p), t, n)
    ensures Sum(n, Terms(p)) == Sum(n, Terms(low)) + Sum(n, Terms(Residual(q, p)))
  {
    if n > 0 {
      TargetSplits(q, p, t, n - 1, low);
      AcceptedMass(q[n - 1], p[n - 1]);
      assert Residual(q, p)[n - 1] == Excess(q[n - 1], p[n - 1]);
      ProductAdds(low[n - 1], Residual(q, p)[n - 1], At(t, n - 1));
    }
  }

  lemma Reassociate(x: real, c: real, y: real)
    ensures Product(x * c, y) == Product(c, Product(x, y))
  {
    assert (x * c) * y == c * (x * y);
  }

  lemma {:induction false} DotScaled(a: seq<real>, c: real, t: seq<real>, n: nat)
    requires n <= |a|
    ensures Dot(Scaled(a, c), t, n) == Product(c, Dot(a, t, n))
  {
    if n > 0 {
      DotScaled(a, c, t, n - 1);
      assert Product(c, Dot(a, t, n)) == Product(c, Dot(a, t, n - 1)) + Product(c, Product(a[n - 1], At(t, n - 1)));
      Reassociate(a[n - 1], c, At(t, n - 1));
      assert Scaled(a, c)[n - 1] == a[n - 1] * c;
    }
  }

  lemma {:induction false} DotVanishes(a: seq<real>, t: seq<real>, n: nat)
    requires n <= |a| && NonNegative(a) && Sum(n, Terms(a)) <= 0.0
    ensures Dot(a, t, n) == 0.0
  {
    if n > 0 {
      SumNonNegative(n - 1, Terms(a));
      assert a[n - 1] == 0.0;
      DotVanishes(a, t, n - 1);
    }
  }

  /** Residual mass times residual mean is the redistributed part of the target's expectation. */
  lemma ResidualMean(q: seq<real>, p: seq<real>, t: seq<real>)
    requires |q| == |p| > 0
    ensures Product(Total(Residual(q, p)), Mean(ResidualLaw(q, p), t)) == Dot(Residual(q, p), t, |q|)
  {
    var res := Residual(q, p);
    var z := Total(res);
    SumNonNegative(|res|, Terms(res));
    if z > 0.0 {
      DotScaled(res, 1.0 / z, t, |res|);
      Cancel(z, Dot(res, t, |res|));
    } else {
      DotVanishes(res, t, |res|);
    }
  }

  lemma Cancel(z: real, x: real)
    requires z != 0.0
    ensures Product(z, Product(1.0 / z, x)) == x
  {
    assert z * (1.0 / z) == 1.0;
    assert z * ((1.0 / z) * x) == (z * (1.0 / z)) * x;
  }

  /** The one-token law of speculative sampling, for every two laws and every valuation t. */
  lemma OneTokenLaw(q: seq<real>, p: seq<real>, t: seq<real>)
    requires |q| == |p| && IsDist(q) && IsDist(p)
    ensures Mean(q, Worths(q, p, t, Mean(ResidualLaw(q, p), t))) == Mean(p, t)
  {
    var n := |q|;
    var low := seq(n, i requires 0 <= i < n => Lesser(q[i], p[i]));
    var r := Mean(ResidualLaw(q, p), t);
    WorthSum(q, p, t, r, n, low);
    TargetSplits(q, p, t, n, low);
    ResidualMean(q, p, t);
    assert Total(Residual(q, p)) == Sum(n, Terms(q)) - Sum(n, Terms(low));
  }
}
