/** Finite sums of reals, indexed from zero, and the few laws the numeric modules share. */
module RealSums {

  function Sum(n: nat, f: nat -> real): real {
    if n == 0 then 0.0 else Sum(n - 1, f) + f(n - 1)
  }

  /** A sequence read as a function that is zero past its end. */
  function At(s: seq<real>, i: nat): real {
    if i < |s| then s[i] else 0.0
  }

  function Terms(s: seq<real>): nat -> real {
    (i: nat) => At(s, i)
  }

  function Total(s: seq<real>): real {
    Sum(|s|, Terms(s))
  }

  lemma {:induction false} SumScale(n: nat, c: real, f: nat -> real, h: nat -> real)
    requires forall i :: 0 <= i < n ==> h(i) == c * f(i)
    ensures Sum(n, h) == c * Sum(n, f)
  {
    if n > 0 {
      SumScale(n - 1, c, f, h);
    }
  }

  lemma {:induction false} SumZero(n: nat, f: nat -> real)
    requires forall i :: 0 <= i < n ==> f(i) == 0.0
    ensures Sum(n, f) == 0.0
  {
    if n > 0 {
      SumZero(n - 1, f);
    }
  }

  /** A sum of non-negative terms is at least any one of them. */
  lemma {:induction false} SumAtLeastTerm(n: nat, f: nat -> real, k: nat)
    requires k < n
    requires forall i :: 0 <= i < n ==> f(i) >= 0.0
    ensures Sum(n, f) >= f(k)
  {
    if k < n - 1 {
      SumAtLeastTerm(n - 1, f, k);
    } else {
      SumNonNegative(n - 1, f);
    }
  }

  lemma {:induction false} SumNonNegative(n: nat, f: nat -> real)
    requires forall i :: 0 <= i < n ==> f(i) >= 0.0
    ensures Sum(n, f) >= 0.0
  {
    if n > 0 {
      SumNonNegative(n - 1, f);
    }
  }

  /** Only one term is non-zero. */
  lemma {:induction false} SumSingle(n: nat, f: nat -> real, k: nat)
    requires k < n
    requires forall i :: 0 <= i < n && i != k ==> f(i) == 0.0
    ensures Sum(n, f) == f(k)
  {
    if k < n - 1 {
      SumSingle(n - 1, f, k);
    } else {
      SumZero(n - 1, f);
    }
  }
}
