/** LoRA in src/lora.c over the reals: adding the low-rank delta to a matrix-vector product is the same
    as multiplying by the merged weight. */
module Lora {
  import opened Spans

  /** One target of an adapter: a has rank rows of inDim entries, b has outDim rows of rank entries. */
  datatype Adapter = Adapter(outDim: nat, inDim: nat, a: seq<seq<real>>, b: seq<seq<real>>, scaling: real)

  ghost predicate Shaped(ad: Adapter) {
    |ad.b| == ad.outDim && (forall r :: 0 <= r < |ad.a| ==> |ad.a[r]| == ad.inDim) &&
    forall i :: 0 <= i < |ad.b| ==> |ad.b[i]| == |ad.a|
  }

  /** A x. */
  function Inner(a: seq<seq<real>>, x: seq<real>): (t: seq<real>)
    requires forall r :: 0 <= r < |a| ==> |a[r]| == |x|
    ensures |t| == |a| && forall r :: 0 <= r < |a| ==> t[r] == Dot(a[r], x)
  {
    seq(|a|, r requires 0 <= r < |a| => Dot(a[r], x))
  }

  function Column(a: seq<seq<real>>, j: nat): (c: seq<real>)
    requires forall r :: 0 <= r < |a| ==> j < |a[r]|
    ensures |c| == |a| && forall r :: 0 <= r < |a| ==> c[r] == a[r][j]
  {
    seq(|a|, r requires 0 <= r < |a| => a[r][j])
  }

  /** Row i of W plus s times row i of B A. */
  function MergedRow(ad: Adapter, w: seq<real>, i: nat, s: real): (m: seq<real>)
    requires i < |ad.b| && Shaped(ad) && |w| == ad.inDim
    ensures |m| == |w| && forall j :: 0 <= j < |w| ==> m[j] == w[j] + Mul(s, Dot(ad.b[i], Column(ad.a, j)))
  {
    seq(|w|, j requires 0 <= j < |w| => w[j] + Mul(s, Dot(ad.b[i], Column(ad.a, j))))
  }

  /** The first n terms of every row of A x. */
  function Partials(a: seq<seq<real>>, x: seq<real>, n: nat): (t: seq<real>)
    requires n <= |x| && forall r :: 0 <= r < |a| ==> |a[r]| == |x|
    ensures |t| == |a| && forall r :: 0 <= r < |a| ==> t[r] == Span(a[r], x, 0, n)
  {
    seq(|a|, r requires 0 <= r < |a| => Span(a[r], x, 0, n))
  }

  lemma MulSpread(b: real, v: real, a: real, x: real, s: real, t: real)
    requires s == v + Mul(a, x)
    ensures Mul(b, s) == Mul(b, v) + Mul(Mul(b, a), x)
    ensures Mul(t + Mul(b, a), x) == Mul(t, x) + Mul(Mul(b, a), x)
  {
    assert Mul(b, s) == b * (v + a * x);
  }

  /** One more column: its weighted sum enters every row at once. */
  lemma {:induction false} OneColumn(b: seq<real>, a: seq<seq<real>>, x: seq<real>, n: nat, k: nat)
    requires n < |x| && k <= |a| == |b| && forall r :: 0 <= r < |a| ==> |a[r]| == |x|
    ensures Span(b, Partials(a, x, n + 1), 0, k) ==
            Span(b, Partials(a, x, n), 0, k) + Mul(Span(b, Column(a, n), 0, k), x[n])
    decreases k
  {
    if k > 0 {
      OneColumn(b, a, x, n, k - 1);
      MulSpread(b[k - 1], Span(a[k - 1], x, 0, n), a[k - 1][n], x[n], Span(a[k - 1], x, 0, n + 1),
        Span(b, Column(a, n), 0, k - 1));
    } else {
      assert Mul(0.0, x[n]) == 0.0;
    }
  }

  lemma {:induction false} ZeroSpan(b: seq<real>, z: seq<real>, k: nat)
    requires k <= |b| && k <= |z| && forall r :: 0 <= r < |z| ==> z[r] == 0.0
    ensures Span(b, z, 0, k) == 0.0
    decreases k
  {
    if k > 0 {
      ZeroSpan(b, z, k - 1);
      assert Mul(b[k - 1], 0.0) == 0.0;
    }
  }

  lemma MulMerged(w: real, s: real, c: real, x: real, before: real)
    ensures Mul(w + Mul(s, c), x) == Mul(w, x) + Mul(s, Mul(c, x))
    ensures Mul(s, before + Mul(c, x)) == Mul(s, before) + Mul(s, Mul(c, x))
  {
    assert Mul(w + Mul(s, c), x) == (w + s * c) * x;
    assert Mul(s, Mul(c, x)) == s * (c * x);
  }

  /** The double sum exchanged, n columns at a time. */
  lemma {:induction false} MergedSpan(ad: Adapter, w: seq<real>, i: nat, s: real, x: seq<real>, n: nat)
    requires i < |ad.b| && Shaped(ad) && |w| == ad.inDim && |x| == |w| && n <= |w|
    ensures Span(MergedRow(ad, w, i, s), x, 0, n) == Span(w, x, 0, n) + Mul(s, Dot(ad.b[i], Partials(ad.a, x, n)))
    decreases n
  {
    var b := ad.b[i];
    if n == 0 {
      ZeroSpan(b, Partials(ad.a, x, 0), |b|);
      assert Mul(s, 0.0) == 0.0;
    } else {
      MergedSpan(ad, w, i, s, x, n - 1);
      OneColumn(b, ad.a, x, n - 1, |b|);
      var c := Dot(b, Column(ad.a, n - 1));
      MulMerged(w[n - 1], s, c, x[n - 1], Dot(b, Partials(ad.a, x, n - 1)));
    }
  }

  /** (W + s B A) x = W x + s B (A x), row by row, for every rank and dimension. */
  lemma MergedIsDelta(ad: Adapter, w: seq<real>, i: nat, s: real, x: seq<real>)
    requires i < |ad.b| && Shaped(ad) && |w| == ad.inDim && |x| == |w|
    ensures Dot(MergedRow(ad, w, i, s), x) == Dot(w, x) + Mul(s, Dot(ad.b[i], Inner(ad.a, x)))
  {
    MergedSpan(ad, w, i, s, x, |w|);
    assert Partials(ad.a, x, |w|) == Inner(ad.a, x);
  }

  // ----- the two loop nests -----

  datatype Status = Done | Skipped | Unsupported | Format

  method RowSum(v: seq<real>, x: seq<real>) returns (acc: real)
    requires |v| == |x|
    ensures acc == Dot(v, x)
  {
    acc := 0.0;
    for j := 0 to |v|
      invariant acc == Span(v, x, 0, j)
    {
      acc := acc + Mul(v[j], x[j]);
    }
  }

  /** tmp = A x. */
  method InnerProducts(a: seq<seq<real>>, x: seq<real>) returns (tmp: seq<real>)
    requires forall r :: 0 <= r < |a| ==> |a[r]| == |x|
    ensures tmp == Inner(a, x)
  {
    tmp := [];
    for r := 0 to |a|
      invariant tmp == Inner(a, x)[..r]
    {
      var acc := RowSum(a[r], x);
      tmp := tmp + [acc];
    }
  }

  /** vg_lora_apply_delta: y gains s B (A x). Without a target of that name and shape nothing changes. */
  method ApplyDelta(found: bool, ad: Adapter, x: seq<real>, y: array<real>, outDim: nat, inDim: nat, scale: real)
    returns (st: Status)
    requires y.Length == outDim && |x| == inDim && Shaped(ad)
    modifies y
    ensures st == if found && ad.outDim == outDim && ad.inDim == inDim then Done else Skipped
    ensures forall i :: 0 <= i < outDim ==>
              y[i] == if st == Done
                      then old(y[i]) + Mul(Mul(scale, ad.scaling), Dot(ad.b[i], Inner(ad.a, x))) else old(y[i])
  {
    if !found || ad.outDim != outDim || ad.inDim != inDim {
      return Skipped;
    }
    var tmp := InnerProducts(ad.a, x);
    var s := Mul(scale, ad.scaling);
    for i := 0 to outDim
      invariant forall k :: 0 <= k < outDim ==>
                  y[k] == if k < i then old(y[k]) + Mul(s, Dot(ad.b[k], Inner(ad.a, x))) else old(y[k])
    {
      var acc := RowSum(ad.b[i], tmp);
      y[i] := y[i] + Mul(s, acc);
    }
    st := Done;
  }

  /** vg_lora_apply: every entry of the weight gains its entry of s B A. */
  method Apply(found: bool, ad: Adapter, weight: array2<real>, outDim: nat, inDim: nat, scale: real)
    returns (st: Status)
    requires weight.Length0 == outDim && weight.Length1 == inDim && Shaped(ad)
    modifies weight
    ensures st == if !found then Unsupported else if ad.outDim != outDim || ad.inDim != inDim then Format else Done
    ensures st != Done ==> forall i, j :: 0 <= i < outDim && 0 <= j < inDim ==> weight[i, j] == old(weight[i, j])
    ensures st == Done ==> forall i, j :: 0 <= i < outDim && 0 <= j < inDim ==>
              weight[i, j] == old(weight[i, j]) + Mul(Mul(scale, ad.scaling), Dot(ad.b[i], Column(ad.a, j)))
  {
    if !found {
      return Unsupported;
    }
    if ad.outDim != outDim || ad.inDim != inDim {
      return Format;
    }
    var s := Mul(scale, ad.scaling);
    for i := 0 to outDim
      invariant forall k, j :: 0 <= k < outDim && 0 <= j < inDim ==>
                  weight[k, j] == if k < i
                    then old(weight[k, j]) + Mul(s, Dot(ad.b[k], Column(ad.a, j))) else old(weight[k, j])
    {
      for j := 0 to inDim
        invariant forall k, l :: 0 <= k < outDim && 0 <= l < inDim ==>
                    weight[k, l] ==
                      if k < i || (k == i && l < j) then old(weight[k, l]) + Mul(s, Dot(ad.b[k], Column(ad.a, l)))
                                    else old(weight[k, l])
      {
        var acc := ColumnSum(ad.b[i], ad.a, j);
        weight[i, j] := weight[i, j] + Mul(s, acc);
      }
    }
    st := Done;
  }

  method ColumnSum(b: seq<real>, a: seq<seq<real>>, j: nat) returns (acc: real)
    requires |b| == |a| && forall r :: 0 <= r < |a| ==> j < |a[r]|
    ensures acc == Dot(b, Column(a, j))
  {
    acc := 0.0;
    for r := 0 to |a|
      invariant acc == Span(b, Column(a, j), 0, r)
    {
      acc := acc + Mul(b[r], a[r][j]);
    }
  }
}
