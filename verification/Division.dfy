/** Quotients and remainders, read off from the number they make up. */
module Division {

  lemma TimesNext(d: nat, a: nat)
    ensures d * (a + 1) == d * a + d
  {
  }

  /** Quotient and remainder are the only pair that makes up x. */
  lemma DivUnique(x: nat, d: nat, q: nat, r: nat)
    requires d > 0 && r < d && x == d * q + r
    ensures x / d == q && x % d == r
  {
    var q' := x / d;
    assert x == d * q' + x % d;
    if q' < q {
      TimesMonotone(d, q' + 1, q);
      TimesNext(d, q');
    } else if q < q' {
      TimesMonotone(d, q + 1, q');
      TimesNext(d, q);
    }
  }

  lemma TimesMonotone(d: nat, a: nat, b: nat)
    requires a <= b
    ensures d * a <= d * b
  {
  }
}
