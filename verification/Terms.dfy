/** Arithmetic left uninterpreted: a kernel's result as the exact tree of operations that produced it.
    Equal trees are equal bit for bit under any rounding; Eval gives their value over the reals. */
module Terms {
  import opened Spans

  datatype Term = Num(value: real) | Plus(Term, Term) | Minus(Term, Term) | Times(Term, Term)

  function Eval(t: Term): real {
    match t
    case Num(r) => r
    case Plus(a, b) => Eval(a) + Eval(b)
    case Minus(a, b) => Eval(a) - Eval(b)
    case Times(a, b) => Mul(Eval(a), Eval(b))
  }

  lemma Product(a: real, t: Term, b: real)
    requires Eval(t) == b
    ensures Eval(Times(Num(a), t)) == Mul(a, b)
  {
    assert Eval(Num(a)) == a;
  }
}
