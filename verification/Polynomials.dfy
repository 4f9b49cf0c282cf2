/** Univariate polynomials as coefficient vectors, lowest degree first: evaluation,
    linear structure, and division by X - u. */
module Polynomials {
  import opened PrimeField
  import opened FieldLaws
  import opened Vectors

  function Pow(x: Fe, k: nat): Fe {
    if k == 0 then 1 else Mul(x, Pow(x, k - 1))
  }

  /** The value of the polynomial at x. */
  function Eval(f: Vec, x: Fe): Fe {
    if |f| == 0 then 0 else Add(f[0], Mul(x, Eval(f[1..], x)))
  }

  lemma {:induction false} PowAdd(x: Fe, i: nat, j: nat)
    ensures Pow(x, i + j) == Mul(Pow(x, i), Pow(x, j))
  {
    hide Mul;
    if i == 0 {
      MulOne(Pow(x, j));
    } else {
      PowAdd(x, i - 1, j);
      MulAssoc(x, Pow(x, i - 1), Pow(x, j));
    }
  }

  lemma PowSnoc(x: Fe, k: nat)
    ensures Pow(x, k + 1) == Mul(Pow(x, k), x) && Pow(x, 1) == x
  {
    hide Mul;
    MulOne(x);
    PowAdd(x, k, 1);
    assert Pow(x, 1) == Mul(x, Pow(x, 0));
  }

  lemma EvalCons(c: Fe, f: Vec, x: Fe)
    ensures Eval([c] + f, x) == Add(c, Mul(x, Eval(f, x)))
  {
    assert ([c] + f)[1..] == f;
  }

  lemma EvalOne(c: Fe, x: Fe)
    ensures Eval([c], x) == c
  {
    hide Mul, Add;
    assert [c][1..] == [];
    MulOne(x);
    AddZero(c);
  }

  lemma {:induction false} EvalConcat(f: Vec, g: Vec, x: Fe)
    ensures Eval(f + g, x) == Add(Eval(f, x), Mul(Pow(x, |f|), Eval(g, x)))
  {
    hide Mul, Add;
    if |f| == 0 {
      assert f + g == g;
      MulOne(Eval(g, x));
      AddZero(Eval(g, x));
    } else {
      assert (f + g)[1..] == f[1..] + g;
      EvalConcat(f[1..], g, x);
      EvalConcatStep(f[0], x, Eval(f[1..], x), Pow(x, |f| - 1), Eval(g, x));
    }
  }

  lemma EvalConcatStep(c: Fe, x: Fe, e: Fe, p: Fe, g: Fe)
    ensures Add(c, Mul(x, Add(e, Mul(p, g)))) == Add(Add(c, Mul(x, e)), Mul(Mul(x, p), g))
  {
    hide *;
    MulAdd(x, e, Mul(p, g));
    MulAssoc(x, p, g);
    AddAssoc(c, Mul(x, e), Mul(Mul(x, p), g));
  }

  lemma EvalSnoc(f: Vec, c: Fe, x: Fe)
    ensures Eval(f + [c], x) == Add(Eval(f, x), Mul(Pow(x, |f|), c))
  {
    hide Mul, Add;
    EvalConcat(f, [c], x);
    EvalOne(c, x);
  }

  lemma {:induction false} EvalZeros(n: nat, x: Fe)
    ensures Eval(Zeros(n), x) == 0
  {
    hide Mul, Add;
    if n > 0 {
      assert Zeros(n)[1..] == Zeros(n - 1);
      EvalZeros(n - 1, x);
      MulOne(x);
      AddZero(0);
    }
  }

  /** a + s*v, where v may be the shorter one. */
  function MulAddVec(a: Vec, v: Vec, s: Fe): (c: Vec)
    requires |v| <= |a|
    ensures |c| == |a|
  {
    seq(|a|, i requires 0 <= i < |a| => if i < |v| then Add(a[i], Mul(s, v[i])) else a[i])
  }

  lemma {:induction false} EvalMulAddVec(a: Vec, v: Vec, s: Fe, x: Fe)
    requires |v| <= |a|
    ensures Eval(MulAddVec(a, v, s), x) == Add(Eval(a, x), Mul(s, Eval(v, x)))
  {
    hide Mul, Add;
    if |v| == 0 {
      assert MulAddVec(a, v, s) == a;
      MulOne(s);
      AddZero(Eval(a, x));
    } else {
      assert MulAddVec(a, v, s)[1..] == MulAddVec(a[1..], v[1..], s);
      EvalMulAddVec(a[1..], v[1..], s, x);
      MulAddStep(a[0], v[0], s, x, Eval(a[1..], x), Eval(v[1..], x));
    }
  }

  lemma MulAddStep(a: Fe, v: Fe, s: Fe, x: Fe, e: Fe, f: Fe)
    ensures Add(Add(a, Mul(s, v)), Mul(x, Add(e, Mul(s, f)))) == Add(Add(a, Mul(x, e)), Mul(s, Add(v, Mul(x, f))))
  {
    hide *;
    Hom();
    ROf(a); ROf(v); ROf(s); ROf(x); ROf(e); ROf(f);
    MulAddStepI(a, v, s, x, e, f);
  }

  lemma MulAddStepI(a: int, v: int, s: int, x: int, e: int, f: int)
    ensures IAdd(IAdd(a, IMul(s, v)), IMul(x, IAdd(e, IMul(s, f))))
         == IAdd(IAdd(a, IMul(x, e)), IMul(s, IAdd(v, IMul(x, f))))
  {
  }

  /** m, m*q, m*q^2, ... */
  function Geometric(m: Fe, q: Fe, k: nat): (s: Vec)
    ensures |s| == k
    decreases k
  {
    if k == 0 then [] else [m] + Geometric(Mul(m, q), q, k - 1)
  }

  lemma {:induction false} GeometricDot(m: Fe, q: Fe, e: Vec)
    ensures Dot(Geometric(m, q, |e|), e) == Mul(m, Eval(e, q))
    decreases |e|
  {
    hide Mul, Add;
    if |e| == 0 {
      MulOne(m);
    } else {
      assert Geometric(m, q, |e|)[1..] == Geometric(Mul(m, q), q, |e| - 1);
      GeometricDot(Mul(m, q), q, e[1..]);
      MulAssoc(m, q, Eval(e[1..], q));
      MulAdd(m, e[0], Mul(q, Eval(e[1..], q)));
    }
  }

  // ------------------------------------------------------ division by X - u

  /** The quotient by X - u, coefficient by coefficient: the Horner recurrence. */
  function Quotient(f: Vec, u: Fe): (h: Vec)
    requires |f| > 0
    ensures |h| == |f| - 1
  {
    seq(|f| - 1, i requires 0 <= i < |f| - 1 => Eval(f[i + 1..], u))
  }

  /** f = (X - u) * h + f(u). */
  lemma {:induction false} QuotientDivides(f: Vec, u: Fe, x: Fe)
    requires |f| > 0
    ensures Eval(f, x) == Add(Mul(Sub(x, u), Eval(Quotient(f, u), x)), Eval(f, u))
  {
    hide Mul, Add, Sub;
    if |f| == 1 {
      assert f[1..] == [] && Quotient(f, u) == [];
      MulOne(x);
      MulOne(u);
      MulOne(Sub(x, u));
      AddZero(f[0]);
    } else {
      var rest := f[1..];
      QuotientDivides(rest, u, x);
      assert Quotient(f, u) == [Eval(rest, u)] + Quotient(rest, u);
      EvalCons(Eval(rest, u), Quotient(rest, u), x);
      DivisionStep(f[0], Eval(rest, u), x, u, Eval(Quotient(rest, u), x));
    }
  }

  lemma DivisionStep(c: Fe, e: Fe, x: Fe, u: Fe, q: Fe)
    ensures Add(c, Mul(x, Add(Mul(Sub(x, u), q), e)))
      == Add(Mul(Sub(x, u), Add(e, Mul(x, q))), Add(c, Mul(u, e)))
  {
    hide *;
    Hom();
    ROf(c); ROf(e); ROf(x); ROf(u); ROf(q);
    DivisionStepI(c, e, x, u, q);
  }

  lemma DivisionStepI(c: int, e: int, x: int, u: int, q: int)
    ensures IAdd(c, IMul(x, IAdd(IMul(ISub(x, u), q), e)))
      == IAdd(IMul(ISub(x, u), IAdd(e, IMul(x, q))), IAdd(c, IMul(u, e)))
  {
  }
}
