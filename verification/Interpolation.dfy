/** Roots and interpolation: a coefficient vector with as many distinct roots as
    coefficients is zero everywhere, so values at 0, 1, ..., n-1 fix a polynomial of
    degree below n. */
module Interpolation {
  import opened PrimeField
  import opened FieldLaws
  import opened Vectors
  import opened Polynomials

  lemma {:induction false} EvalScale(k: Fe, f: Vec, x: Fe)
    ensures Eval(VScale(k, f), x) == Mul(k, Eval(f, x))
  {
    hide Mul, Add;
    if |f| == 0 {
      MulOne(k);
    } else {
      assert VScale(k, f)[1..] == VScale(k, f[1..]);
      EvalScale(k, f[1..], x);
      ScaleStep(k, f[0], x, Eval(f[1..], x));
    }
  }

  lemma ScaleStep(k: Fe, c: Fe, x: Fe, e: Fe)
    ensures Add(Mul(k, c), Mul(x, Mul(k, e))) == Mul(k, Add(c, Mul(x, e)))
  {
    hide *;
    Hom();
    ROf(k); ROf(c); ROf(x); ROf(e);
    ScaleStepI(k, c, x, e);
  }

  lemma ScaleStepI(k: int, c: int, x: int, e: int)
    ensures IAdd(IMul(k, c), IMul(x, IMul(k, e))) == IMul(k, IAdd(c, IMul(x, e)))
  {
  }

  lemma {:induction false} EvalSum(f: Vec, g: Vec, x: Fe)
    requires |f| == |g|
    ensures Eval(VAdd(f, g), x) == Add(Eval(f, x), Eval(g, x))
  {
    hide Mul, Add;
    if |f| == 0 {
      AddZero(0);
    } else {
      assert VAdd(f, g)[1..] == VAdd(f[1..], g[1..]);
      EvalSum(f[1..], g[1..], x);
      MulAdd(x, Eval(f[1..], x), Eval(g[1..], x));
      AddSwap(f[0], g[0], Mul(x, Eval(f[1..], x)), Mul(x, Eval(g[1..], x)));
    }
  }

  /** The value at x of the line through c0 at 0 and c1 at 1. */
  function At(c0: Fe, c1: Fe, x: Fe): Fe {
    Add(c0, Mul(x, Sub(c1, c0)))
  }

  /** f times that line. */
  function TimesLine(f: Vec, c0: Fe, c1: Fe): (g: Vec)
    ensures |g| == |f| + 1
  {
    MulAddVec([0] + VScale(Sub(c1, c0), f), f, c0)
  }

  lemma EvalTimesLine(f: Vec, c0: Fe, c1: Fe, x: Fe)
    ensures Eval(TimesLine(f, c0, c1), x) == Mul(Eval(f, x), At(c0, c1, x))
  {
    hide Mul, Add, Sub, Eval, VScale;
    var d := Sub(c1, c0);
    EvalMulAddVec([0] + VScale(d, f), f, c0, x);
    EvalCons(0, VScale(d, f), x);
    EvalScale(d, f, x);
    AddZero(Mul(x, Mul(d, Eval(f, x))));
    LineStep(x, d, c0, Eval(f, x));
  }

  lemma LineStep(x: Fe, d: Fe, c: Fe, e: Fe)
    ensures Add(Mul(x, Mul(d, e)), Mul(c, e)) == Mul(e, Add(c, Mul(x, d)))
  {
    hide *;
    Hom();
    ROf(x); ROf(d); ROf(c); ROf(e);
    LineStepI(x, d, c, e);
  }

  lemma LineStepI(x: int, d: int, c: int, e: int)
    ensures IAdd(IMul(x, IMul(d, e)), IMul(c, e)) == IMul(e, IAdd(c, IMul(x, d)))
  {
  }

  // -------------------------------------------------------------------- roots

  ghost predicate Distinct(xs: seq<Fe>) {
    forall i, j :: 0 <= i < j < |xs| ==> xs[i] != xs[j]
  }

  ghost predicate Roots(f: Vec, xs: seq<Fe>) {
    forall i :: 0 <= i < |xs| ==> Eval(f, xs[i]) == 0
  }

  lemma {:induction false} FewRoots(f: Vec, xs: seq<Fe>, x: Fe)
    requires |f| <= |xs| && Distinct(xs) && Roots(f, xs)
    ensures Eval(f, x) == 0
    decreases |f|
  {
    hide Mul, Sub, Add, Eval, Quotient;
    if |f| == 0 {
      EmptyIsZero(f, x);
    } else {
      var u := xs[0];
      var q := Quotient(f, u);
      assert Eval(f, u) == 0;
      forall i | 0 <= i < |xs| - 1 ensures Eval(q, xs[1..][i]) == 0 {
        var y := xs[i + 1];
        assert xs[0] != y && Eval(f, y) == 0;
        QuotientDivides(f, u, y);
        AddZero(Mul(Sub(y, u), Eval(q, y)));
        NoZeroDivisors(Sub(y, u), Eval(q, y));
        SubIsZero(y, u);
      }
      FewRoots(q, xs[1..], x);
      QuotientDivides(f, u, x);
      MulOne(Sub(x, u));
      AddZero(0);
    }
  }

  /** ... so all its coefficients are zero. */
  lemma {:induction false} ZeroCoefficients(f: Vec, xs: seq<Fe>)
    requires |f| <= |xs| && Distinct(xs) && Roots(f, xs)
    ensures forall i :: 0 <= i < |f| ==> f[i] == 0
    decreases |f|
  {
    hide Mul, Add, Eval;
    if |f| > 0 {
      FewRoots(f, xs, 0);
      ConstantTerm(f);
      var ys := NonzeroRoots(f[1..], xs) by { ShiftRoots(f, xs); }
      ZeroCoefficients(f[1..], ys);
    }
  }

  lemma ConstantTerm(f: Vec)
    requires |f| > 0
    ensures Eval(f, 0) == f[0]
  {
    hide Mul, Add;
    MulOne(Eval(f[1..], 0));
    AddZero(f[0]);
  }

  lemma ShiftRoots(f: Vec, xs: seq<Fe>)
    requires |f| > 0 && f[0] == 0 && Roots(f, xs)
    ensures forall i :: 0 <= i < |xs| && xs[i] != 0 ==> Eval(f[1..], xs[i]) == 0
  {
    hide Mul, Add;
    forall i | 0 <= i < |xs| && xs[i] != 0 ensures Eval(f[1..], xs[i]) == 0 {
      assert Eval(f, xs[i]) == 0;
      AddZero(Mul(xs[i], Eval(f[1..], xs[i])));
      NoZeroDivisors(xs[i], Eval(f[1..], xs[i]));
    }
  }

  /** The points without one that may be zero. */
  lemma NonzeroRoots(f: Vec, xs: seq<Fe>) returns (ys: seq<Fe>)
    requires |xs| > 0 && Distinct(xs)
    requires forall i :: 0 <= i < |xs| && xs[i] != 0 ==> Eval(f, xs[i]) == 0
    ensures |ys| == |xs| - 1 && Distinct(ys) && Roots(f, ys)
  {
    hide Eval;
    if k: nat :| k < |xs| && xs[k] == 0 {
      ys := xs[..k] + xs[k + 1..];
      forall i | 0 <= i < |ys| ensures Eval(f, ys[i]) == 0 {
        var j := if i < k then i else i + 1;
        assert ys[i] == xs[j] && xs[j] != 0;
      }
    } else {
      ys := xs[1..];
      forall i | 0 <= i < |ys| ensures Eval(f, ys[i]) == 0 { assert ys[i] == xs[i + 1]; }
    }
  }

  lemma EmptyIsZero(f: Vec, x: Fe)
    requires |f| == 0
    ensures Eval(f, x) == 0
  {
  }

  /** Two polynomials of degree below n that agree at n distinct points agree everywhere. */
  lemma SameEverywhere(f: Vec, g: Vec, xs: seq<Fe>, x: Fe)
    requires |f| == |g| <= |xs| && Distinct(xs)
    requires forall i :: 0 <= i < |xs| ==> Eval(f, xs[i]) == Eval(g, xs[i])
    ensures Eval(f, x) == Eval(g, x)
  {
    hide Mul, Add, Eval;
    var d := VAdd(f, VScale(Sub(0, 1), g));
    forall i | 0 <= i < |xs| ensures Eval(d, xs[i]) == 0 {
      Difference(f, g, xs[i]);
      SubIsZero(Eval(f, xs[i]), Eval(g, xs[i]));
    }
    FewRoots(d, xs, x);
    Difference(f, g, x);
    SubIsZero(Eval(f, x), Eval(g, x));
  }

  lemma Difference(f: Vec, g: Vec, x: Fe)
    requires |f| == |g|
    ensures Eval(VAdd(f, VScale(Sub(0, 1), g)), x) == Sub(Eval(f, x), Eval(g, x))
  {
    hide Mul, Add, Eval, VAdd, VScale;
    EvalSum(f, VScale(Sub(0, 1), g), x);
    EvalScale(Sub(0, 1), g, x);
    MinusOne(Eval(f, x), Eval(g, x));
  }

  lemma MinusOne(a: Fe, b: Fe)
    ensures Add(a, Mul(Sub(0, 1), b)) == Sub(a, b)
  {
    hide *;
    Hom();
    ROf(a); ROf(b); ROf(0); ROf(1);
    MinusOneI(a, b);
  }

  lemma MinusOneI(a: int, b: int)
    ensures IAdd(a, IMul(ISub(0, 1), b)) == ISub(a, b)
  {
  }

  ghost predicate SameValues(f: Vec, h: Vec) {
    forall x: Fe :: Eval(f, x) == Eval(h, x)
  }

  /** The same for polynomials of different lengths. */
  lemma AgreeLonger(f: Vec, h: Vec, xs: seq<Fe>)
    requires |f| <= |xs| && |h| <= |xs| && Distinct(xs)
    requires forall k :: 0 <= k < |xs| ==> Eval(f, xs[k]) == Eval(h, xs[k])
    ensures SameValues(f, h)
  {
    hide Eval, Zeros;
    var (f', h') := (f + Zeros(|xs| - |f|), h + Zeros(|xs| - |h|));
    forall x: Fe ensures Eval(f', x) == Eval(f, x) && Eval(h', x) == Eval(h, x) {
      TrailingZeros(f, |xs| - |f|, x);
      TrailingZeros(h, |xs| - |h|, x);
    }
    forall x: Fe ensures Eval(f, x) == Eval(h, x) { SameEverywhere(f', h', xs, x); }
  }

  lemma TrailingZeros(f: Vec, n: nat, x: Fe)
    ensures Eval(f + Zeros(n), x) == Eval(f, x)
  {
    hide Eval, Zeros, Mul, Add;
    EvalConcat(f, Zeros(n), x);
    EvalZeros(n, x);
    MulOne(Pow(x, |f|));
    AddZero(Eval(f, x));
  }

  // ------------------------------------------------------------- interpolation

  /** The product of X - x over the given points. */
  function Vanishing(xs: seq<Fe>): (f: Vec)
    ensures |f| == |xs| + 1
  {
    if |xs| == 0 then [1]
    else
      var x := xs[|xs| - 1];
      TimesLine(Vanishing(xs[..|xs| - 1]), Sub(0, x), Sub(1, x))
  }

  lemma {:induction false} VanishingRoots(xs: seq<Fe>, x: Fe)
    ensures Eval(Vanishing(xs), x) == 0 <==> x in xs
  {
    hide Mul, Eval, Add, Sub, TimesLine;
    if |xs| == 0 {
      EvalOne(1, x);
    } else {
      var (init, last) := (xs[..|xs| - 1], xs[|xs| - 1]);
      VanishingRoots(init, x);
      assert xs == init + [last];
      EvalTimesLine(Vanishing(init), Sub(0, last), Sub(1, last), x);
      ShiftedLine(last, x);
      NoZeroDivisors(Eval(Vanishing(init), x), Sub(x, last));
      SubIsZero(x, last);
    }
  }

  lemma ShiftedLine(m: Fe, x: Fe)
    ensures At(Sub(0, m), Sub(1, m), x) == Sub(x, m)
  {
    hide Mul, Add, Sub;
    ShiftedLineF(m, x);
  }

  lemma ShiftedLineF(m: Fe, x: Fe)
    ensures Add(Sub(0, m), Mul(x, Sub(Sub(1, m), Sub(0, m)))) == Sub(x, m)
  {
    hide *;
    Hom();
    ROf(m); ROf(x); ROf(0); ROf(1);
    ShiftedLineI(m, x);
  }

  lemma ShiftedLineI(m: int, x: int)
    ensures IAdd(ISub(0, m), IMul(x, ISub(ISub(1, m), ISub(0, m)))) == ISub(x, m)
  {
  }

  /** The polynomial of degree below n with the given values at n distinct points, in
      Newton's form. */
  function Interpolate(xs: seq<Fe>, ys: Vec): (f: Vec)
    requires |xs| == |ys|
    ensures |f| == |ys|
  {
    if |ys| == 0 then []
    else
      var m := |ys| - 1;
      var f := Interpolate(xs[..m], ys[..m]) + [0];
      var v := Vanishing(xs[..m]);
      MulAddVec(f, v, Mul(Sub(ys[m], Eval(f, xs[m])), Inv(Eval(v, xs[m]))))
  }

  lemma {:induction false} InterpolateMeets(xs: seq<Fe>, ys: Vec, i: nat)
    requires i < |ys| == |xs| && Distinct(xs)
    ensures Eval(Interpolate(xs, ys), xs[i]) == ys[i]
  {
    hide Mul, Eval, Add, Sub, Inv, Vanishing;
    var m := |ys| - 1;
    var f := Interpolate(xs[..m], ys[..m]) + [0];
    var v := Vanishing(xs[..m]);
    var w := Eval(v, xs[m]);
    var k := Mul(Sub(ys[m], Eval(f, xs[m])), Inv(w));
    EvalMulAddVec(f, v, k, xs[i]);
    VanishingRoots(xs[..m], xs[i]);
    VanishingRoots(xs[..m], xs[m]);
    if i < m {
      assert xs[i] == xs[..m][i];
      InterpolateMeets(xs[..m], ys[..m], i);
      EvalSnoc(Interpolate(xs[..m], ys[..m]), 0, xs[i]);
      MulOne(Pow(xs[i], m));
      MulOne(k);
      AddZero(ys[i]);
    } else {
      assert xs[m] !in xs[..m];
      MulInv(w);
      MulAssoc(Sub(ys[m], Eval(f, xs[m])), Inv(w), w);
      MulOne(Sub(ys[m], Eval(f, xs[m])));
      AddSub(Eval(f, xs[m]), ys[m]);
    }
  }

  /** The points 0, 1, ..., n-1. */
  function Points(n: nat): (xs: seq<Fe>)
    requires n <= P
    ensures |xs| == n
  {
    seq(n, i requires 0 <= i < n => i)
  }

  function FromEvals(ys: Vec): (f: Vec)
    requires |ys| <= P
    ensures |f| == |ys|
  {
    Interpolate(Points(|ys|), ys)
  }

  lemma FromEvalsMeets(ys: Vec, i: nat)
    requires i < |ys| <= P
    ensures Eval(FromEvals(ys), i) == ys[i]
  {
    hide Eval, Interpolate;
    InterpolateMeets(Points(|ys|), ys, i);
  }

  // ------------------------------------------------ reading off one coefficient

  function Unit(n: nat, k: nat): (e: Vec)
    ensures |e| == n
  {
    seq(n, i requires 0 <= i < n => if i == k then 1 else 0)
  }

  lemma {:induction false} EvalUnit(n: nat, k: nat, x: Fe)
    requires k < n
    ensures Eval(Unit(n, k), x) == Pow(x, k)
  {
    hide Mul, Add;
    if k == 0 {
      assert Unit(n, 0)[1..] == Zeros(n - 1);
      EvalZeros(n - 1, x);
      MulOne(x);
      AddZero(1);
    } else {
      assert Unit(n, k)[1..] == Unit(n - 1, k - 1);
      EvalUnit(n - 1, k - 1, x);
      AddZero(Mul(x, Pow(x, k - 1)));
    }
  }

  function ValuesAt(f: Vec, xs: seq<Fe>): (ys: Vec)
    ensures |ys| == |xs|
  {
    seq(|xs|, i requires 0 <= i < |xs| => Eval(f, xs[i]))
  }

  /** The weights that turn the values of a polynomial at xs into its coefficient j. */
  function Extractor(xs: seq<Fe>, j: nat): (w: Vec)
    requires j < |xs|
    ensures |w| == |xs|
  {
    seq(|xs|, i requires 0 <= i < |xs| => Interpolate(xs, Unit(|xs|, i))[j])
  }

  /** The first k values, each times the polynomial that is 1 at its point and 0 at the others. */
  function Spread(xs: seq<Fe>, ys: Vec, k: nat): (f: Vec)
    requires k <= |xs| == |ys|
    ensures |f| == |xs|
  {
    if k == 0 then Zeros(|xs|) else VAdd(Spread(xs, ys, k - 1), VScale(ys[k - 1], Interpolate(xs, Unit(|xs|, k - 1))))
  }

  lemma {:induction false} EvalSpread(xs: seq<Fe>, ys: Vec, k: nat, i: nat)
    requires k <= |xs| == |ys| && i < |xs| && Distinct(xs)
    ensures Eval(Spread(xs, ys, k), xs[i]) == if i < k then ys[i] else 0
  {
    hide Mul, Add, Eval, Interpolate, VAdd, VScale;
    if k == 0 {
      EvalZeros(|xs|, xs[i]);
    } else {
      var f := Interpolate(xs, Unit(|xs|, k - 1));
      EvalSpread(xs, ys, k - 1, i);
      EvalSum(Spread(xs, ys, k - 1), VScale(ys[k - 1], f), xs[i]);
      EvalScale(ys[k - 1], f, xs[i]);
      InterpolateMeets(xs, Unit(|xs|, k - 1), i);
      MulOne(ys[k - 1]);
      AddZero(ys[k - 1]);
      AddZero(if i < k - 1 then ys[i] else 0);
    }
  }

  lemma {:induction false} SpreadCoefficient(xs: seq<Fe>, ys: Vec, k: nat, j: nat)
    requires k <= |xs| == |ys| && j < |xs|
    ensures Spread(xs, ys, k)[j] == Dot(ys[..k], Extractor(xs, j)[..k])
  {
    hide Mul, Add, Interpolate;
    if k > 0 {
      var w := Extractor(xs, j);
      SpreadCoefficient(xs, ys, k - 1, j);
      assert ys[..k] == ys[..k - 1] + [ys[k - 1]] && w[..k] == w[..k - 1] + [w[k - 1]];
      DotConcat(ys[..k - 1], [ys[k - 1]], w[..k - 1], [w[k - 1]]);
      AddZero(Mul(ys[k - 1], w[k - 1]));
    }
  }

  /** The values of a polynomial at n distinct points give each of its n coefficients. */
  lemma ReadsCoefficient(xs: seq<Fe>, f: Vec, j: nat)
    requires j < |f| == |xs| && Distinct(xs)
    ensures Dot(Extractor(xs, j), ValuesAt(f, xs)) == f[j]
  {
    hide Mul, Add, Eval, Interpolate, Extractor, Spread, Dot;
    var (n, ys, w) := (|xs|, ValuesAt(f, xs), Extractor(xs, j));
    var s := Spread(xs, ys, n);
    forall i | 0 <= i < n ensures Eval(s, xs[i]) == Eval(f, xs[i]) { EvalSpread(xs, ys, n, i); }
    SameCoefficients(s, f, xs);
    SpreadCoefficient(xs, ys, n, j);
    assert ys[..n] == ys && w[..n] == w;
    DotComm(ys, w);
  }

  lemma SameCoefficients(f: Vec, g: Vec, xs: seq<Fe>)
    requires |f| == |g| <= |xs| && Distinct(xs)
    requires forall i :: 0 <= i < |xs| ==> Eval(f, xs[i]) == Eval(g, xs[i])
    ensures f == g
  {
    hide Mul, Add, Eval;
    var d := VAdd(f, VScale(Sub(0, 1), g));
    forall i | 0 <= i < |xs| ensures Eval(d, xs[i]) == 0 {
      Difference(f, g, xs[i]);
      SubIsZero(Eval(f, xs[i]), Eval(g, xs[i]));
    }
    ZeroCoefficients(d, xs);
    forall i | 0 <= i < |f| ensures f[i] == g[i] {
      assert d[i] == 0;
      MinusOne(f[i], g[i]);
      SubIsZero(f[i], g[i]);
    }
  }
}
