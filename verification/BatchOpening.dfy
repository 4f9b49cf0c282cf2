/** The batch opening of BDFG20 section 4.1 as Mercury uses it, on four polynomials and
    the points alpha, zeta and 1/zeta: the prover's divisions leave no remainder, and
    the verifier's pairing equation holds. */
module BatchOpening {
  import opened PrimeField
  import opened FieldLaws
  import opened PrimeGroup
  import opened Vectors
  import opened Pedersen
  import opened Polynomials
  import opened Interpolation
  import opened Gaussian
  import opened Mercury
  import opened Transcripts
  import opened Wrappers
  import HyperKzg

  datatype Spots = Spots(zeta: Fe, zetaInv: Fe, alpha: Fe)

  datatype Evals = Evals(gZeta: Fe, gZetaInv: Fe, hZeta: Fe, hZetaInv: Fe, hAlpha: Fe, sZeta: Fe, sZetaInv: Fe, dZeta: Fe)

  /** Four polynomials; the opened ones, or those that agree with them at the points. */
  datatype Four = Four(g: Vec, h: Vec, s: Vec, d: Vec)

  ghost predicate Apart(t: Spots) {
    t.zeta != t.zetaInv && t.zeta != t.alpha && t.zetaInv != t.alpha
  }

  ghost predicate TrueEvals(p: Four, t: Spots, e: Evals) {
    && Eval(p.g, t.zeta) == e.gZeta && Eval(p.g, t.zetaInv) == e.gZetaInv
    && Eval(p.h, t.zeta) == e.hZeta && Eval(p.h, t.zetaInv) == e.hZetaInv && Eval(p.h, t.alpha) == e.hAlpha
    && Eval(p.s, t.zeta) == e.sZeta && Eval(p.s, t.zetaInv) == e.sZetaInv
    && Eval(p.d, t.zeta) == e.dZeta
  }

  function Stars(t: Spots, e: Evals): Four {
    Four(Interpolate([t.zeta, t.zetaInv], [e.gZeta, e.gZetaInv]),
         Interpolate([t.zeta, t.zetaInv, t.alpha], [e.hZeta, e.hZetaInv, e.hAlpha]),
         Interpolate([t.zeta, t.zetaInv], [e.sZeta, e.sZetaInv]), Interpolate([t.zeta], [e.dZeta]))
  }

  lemma StarsTrue(t: Spots, e: Evals)
    requires Apart(t)
    ensures TrueEvals(Stars(t, e), t, e)
  {
    hide Interpolate, Eval;
    InterpolateMeets([t.zeta, t.zetaInv], [e.gZeta, e.gZetaInv], 0);
    InterpolateMeets([t.zeta, t.zetaInv], [e.gZeta, e.gZetaInv], 1);
    InterpolateMeets([t.zeta, t.zetaInv, t.alpha], [e.hZeta, e.hZetaInv, e.hAlpha], 0);
    InterpolateMeets([t.zeta, t.zetaInv, t.alpha], [e.hZeta, e.hZetaInv, e.hAlpha], 1);
    InterpolateMeets([t.zeta, t.zetaInv, t.alpha], [e.hZeta, e.hZetaInv, e.hAlpha], 2);
    InterpolateMeets([t.zeta, t.zetaInv], [e.sZeta, e.sZetaInv], 0);
    InterpolateMeets([t.zeta, t.zetaInv], [e.sZeta, e.sZetaInv], 1);
    InterpolateMeets([t.zeta], [e.dZeta], 0);
  }

  // ------------------------------------------------------------- the combined m(X)

  /** The value of m at x from the four differences there. */
  function Combined(t: Spots, beta: Fe, x: Fe, dg: Fe, dh: Fe, ds: Fe, dd: Fe): Fe {
    Add(Add(Add(Mul(dg, Sub(x, t.alpha)), Mul(beta, dh)), Mul(Mul(beta, beta), Mul(ds, Sub(x, t.alpha)))),
        Mul(Mul(Mul(beta, beta), beta), Mul(Mul(dd, Sub(x, t.alpha)), Sub(x, t.zetaInv))))
  }

  function MValue(p: Four, st: Four, t: Spots, beta: Fe, x: Fe): Fe {
    Combined(t, beta, x, Sub(Eval(p.g, x), Eval(st.g, x)), Sub(Eval(p.h, x), Eval(st.h, x)),
             Sub(Eval(p.s, x), Eval(st.s, x)), Sub(Eval(p.d, x), Eval(st.d, x)))
  }

  lemma CombinedZero(t: Spots, beta: Fe, x: Fe, dg: Fe, dh: Fe, ds: Fe, dd: Fe)
    requires dh == 0 && (x == t.alpha || (dg == 0 && ds == 0 && (dd == 0 || x == t.zetaInv)))
    ensures Combined(t, beta, x, dg, dh, ds, dd) == 0
  {
    hide Mul, Add, Sub;
    SubIsZero(x, t.alpha);
    SubIsZero(x, t.zetaInv);
    MulOne(dg); MulOne(ds); MulOne(dd);
    MulOne(Sub(x, t.alpha));
    MulOne(Sub(x, t.zetaInv));
    MulOne(Mul(dd, Sub(x, t.alpha)));
    MulOne(beta);
    MulOne(Mul(beta, beta));
    MulOne(Mul(Mul(beta, beta), beta));
    AddZero(0);
  }

  /** m vanishes at all three points. */
  lemma MVanishes(p: Four, t: Spots, e: Evals, beta: Fe)
    requires Apart(t) && TrueEvals(p, t, e)
    ensures MValue(p, Stars(t, e), t, beta, t.alpha) == 0
    ensures MValue(p, Stars(t, e), t, beta, t.zeta) == 0
    ensures MValue(p, Stars(t, e), t, beta, t.zetaInv) == 0
  {
    hide Combined, Eval, Sub, Stars;
    StarsTrue(t, e);
    var st := Stars(t, e);
    VanishAt(p, st, t, beta, t.alpha);
    VanishAt(p, st, t, beta, t.zeta);
    VanishAt(p, st, t, beta, t.zetaInv);
  }

  lemma VanishAt(p: Four, st: Four, t: Spots, beta: Fe, x: Fe)
    requires Eval(p.h, x) == Eval(st.h, x)
    requires x == t.alpha || (Eval(p.g, x) == Eval(st.g, x) && Eval(p.s, x) == Eval(st.s, x)
                              && (Eval(p.d, x) == Eval(st.d, x) || x == t.zetaInv))
    ensures MValue(p, st, t, beta, x) == 0
  {
    hide Combined, Eval, Sub;
    SubIsZero(Eval(p.g, x), Eval(st.g, x));
    SubIsZero(Eval(p.h, x), Eval(st.h, x));
    SubIsZero(Eval(p.s, x), Eval(st.s, x));
    SubIsZero(Eval(p.d, x), Eval(st.d, x));
    CombinedZero(t, beta, x, Sub(Eval(p.g, x), Eval(st.g, x)), Sub(Eval(p.h, x), Eval(st.h, x)),
                 Sub(Eval(p.s, x), Eval(st.s, x)), Sub(Eval(p.d, x), Eval(st.d, x)));
  }

  // For claimed values that may be false, m at each point is a polynomial in beta whose
  // coefficients are the errors of the claims.

  ghost predicate Undetected(p: Four, t: Spots, e: Evals, beta: Fe) {
    var (dz, di) := (Sub(t.zeta, t.alpha), Sub(t.zetaInv, t.alpha));
    && Mul(beta, Sub(Eval(p.h, t.alpha), e.hAlpha)) == 0
    && Eval([Mul(Sub(Eval(p.g, t.zeta), e.gZeta), dz), Sub(Eval(p.h, t.zeta), e.hZeta),
             Mul(Sub(Eval(p.s, t.zeta), e.sZeta), dz),
             Mul(Mul(Sub(Eval(p.d, t.zeta), e.dZeta), dz), Sub(t.zeta, t.zetaInv))], beta) == 0
    && Eval([Mul(Sub(Eval(p.g, t.zetaInv), e.gZetaInv), di), Sub(Eval(p.h, t.zetaInv), e.hZetaInv),
             Mul(Sub(Eval(p.s, t.zetaInv), e.sZetaInv), di), 0], beta) == 0
  }

  lemma CombinedIsCubic(t: Spots, beta: Fe, x: Fe, dg: Fe, dh: Fe, ds: Fe, dd: Fe)
    ensures Combined(t, beta, x, dg, dh, ds, dd)
      == Eval([Mul(dg, Sub(x, t.alpha)), dh, Mul(ds, Sub(x, t.alpha)), Mul(Mul(dd, Sub(x, t.alpha)), Sub(x, t.zetaInv))], beta)
  {
    hide Mul, Add, Sub, Eval;
    var (a, c, d) := (Mul(dg, Sub(x, t.alpha)), Mul(ds, Sub(x, t.alpha)), Mul(Mul(dd, Sub(x, t.alpha)), Sub(x, t.zetaInv)));
    CubicForm(a, dh, c, d, beta);
    EvalFour(a, dh, c, d, beta);
  }

  lemma EvalFour(a: Fe, b: Fe, c: Fe, d: Fe, y: Fe)
    ensures Eval([a, b, c, d], y) == Add(a, Mul(y, Add(b, Mul(y, Add(c, Mul(y, Add(d, Mul(y, 0))))))))
  {
    hide Mul, Add;
    EvalCons(a, [b, c, d], y);
    EvalCons(b, [c, d], y);
    EvalCons(c, [d], y);
    EvalCons(d, [], y);
    assert [a, b, c, d] == [a] + [b, c, d] && [b, c, d] == [b] + [c, d] && [c, d] == [c] + [d] && [d] == [d] + [];
  }

  lemma CubicForm(a: Fe, b: Fe, c: Fe, d: Fe, y: Fe)
    ensures Add(Add(Add(a, Mul(y, b)), Mul(Mul(y, y), c)), Mul(Mul(Mul(y, y), y), d))
      == Add(a, Mul(y, Add(b, Mul(y, Add(c, Mul(y, Add(d, Mul(y, 0))))))))
  {
    hide *;
    Hom();
    ROf(a); ROf(b); ROf(c); ROf(d); ROf(y); ROf(0);
    CubicFormI(a, b, c, d, y);
  }

  lemma CubicFormI(a: int, b: int, c: int, d: int, y: int)
    ensures IAdd(IAdd(IAdd(a, IMul(y, b)), IMul(IMul(y, y), c)), IMul(IMul(IMul(y, y), y), d))
      == IAdd(a, IMul(y, IAdd(b, IMul(y, IAdd(c, IMul(y, IAdd(d, IMul(y, 0))))))))
  {
  }

  lemma OnlyH(a: Fe, h: Fe, y: Fe)
    requires a == 0
    ensures Eval([a, h, a, a], y) == Mul(y, h)
  {
    hide Mul, Add, Eval;
    EvalFour(a, h, a, a, y);
    MulOne(y);
    AddZero(0);
    AddZero(h);
    AddZero(Mul(y, h));
  }

  /** m vanishes at the three points exactly when beta hides the errors. */
  lemma MVanishesExactly(p: Four, t: Spots, e: Evals, beta: Fe)
    requires Apart(t)
    ensures Undetected(p, t, e, beta)
      <==> MValue(p, Stars(t, e), t, beta, t.alpha) == 0 && MValue(p, Stars(t, e), t, beta, t.zeta) == 0
           && MValue(p, Stars(t, e), t, beta, t.zetaInv) == 0
  {
    hide Combined, Eval, Stars, Mul, Sub, Apart;
    StarsTrue(t, e);
    var st := Stars(t, e);
    MIsCubic(p, st, t, beta, t.alpha);
    MIsCubic(p, st, t, beta, t.zeta);
    MIsCubic(p, st, t, beta, t.zetaInv);
    SubIsZero(t.alpha, t.alpha);
    SubIsZero(t.zetaInv, t.zetaInv);
    MulOne(Sub(Eval(p.g, t.alpha), Eval(st.g, t.alpha)));
    MulOne(Sub(Eval(p.s, t.alpha), Eval(st.s, t.alpha)));
    MulOne(Sub(Eval(p.d, t.alpha), Eval(st.d, t.alpha)));
    MulOne(Sub(t.alpha, t.zetaInv));
    MulOne(Mul(Sub(Eval(p.d, t.zetaInv), Eval(st.d, t.zetaInv)), Sub(t.zetaInv, t.alpha)));
    OnlyH(0, Sub(Eval(p.h, t.alpha), e.hAlpha), beta);
  }

  lemma MIsCubic(p: Four, st: Four, t: Spots, beta: Fe, x: Fe)
    ensures MValue(p, st, t, beta, x)
      == Eval([Mul(Sub(Eval(p.g, x), Eval(st.g, x)), Sub(x, t.alpha)), Sub(Eval(p.h, x), Eval(st.h, x)),
               Mul(Sub(Eval(p.s, x), Eval(st.s, x)), Sub(x, t.alpha)),
               Mul(Mul(Sub(Eval(p.d, x), Eval(st.d, x)), Sub(x, t.alpha)), Sub(x, t.zetaInv))], beta)
  {
    hide Combined, Eval, Mul, Sub;
    CombinedIsCubic(t, beta, x, Sub(Eval(p.g, x), Eval(st.g, x)), Sub(Eval(p.h, x), Eval(st.h, x)),
                    Sub(Eval(p.s, x), Eval(st.s, x)), Sub(Eval(p.d, x), Eval(st.d, x)));
  }

  /** Four values of beta tell false claims from true ones: at most three hide an error. */
  lemma FourBetas(p: Four, t: Spots, e: Evals, betas: seq<Fe>)
    requires Apart(t) && |betas| == 4 && Distinct(betas)
    ensures (forall i :: 0 <= i < 4 ==> Undetected(p, t, e, betas[i])) <==> TrueEvals(p, t, e)
  {
    hide Eval, Mul, Sub, Combined, Stars, MValue;
    if TrueEvals(p, t, e) {
      forall i | 0 <= i < 4 ensures Undetected(p, t, e, betas[i]) {
        MVanishes(p, t, e, betas[i]);
        MVanishesExactly(p, t, e, betas[i]);
      }
    }
    if forall i :: 0 <= i < 4 ==> Undetected(p, t, e, betas[i]) {
      ErrorsAreZero(p, t, e, betas);
    }
  }

  lemma ErrorsAreZero(p: Four, t: Spots, e: Evals, betas: seq<Fe>)
    requires Apart(t) && |betas| == 4 && Distinct(betas)
    requires forall i :: 0 <= i < 4 ==> Undetected(p, t, e, betas[i])
    ensures TrueEvals(p, t, e)
  {
    hide Eval, Mul, Sub;
    var (dz, di) := (Sub(t.zeta, t.alpha), Sub(t.zetaInv, t.alpha));
    var (gz, hz, sz, dd) := (Sub(Eval(p.g, t.zeta), e.gZeta), Sub(Eval(p.h, t.zeta), e.hZeta),
                             Sub(Eval(p.s, t.zeta), e.sZeta), Sub(Eval(p.d, t.zeta), e.dZeta));
    var (gi, hi, si) := (Sub(Eval(p.g, t.zetaInv), e.gZetaInv), Sub(Eval(p.h, t.zetaInv), e.hZetaInv),
                         Sub(Eval(p.s, t.zetaInv), e.sZetaInv));
    var ha := Sub(Eval(p.h, t.alpha), e.hAlpha);
    var zs: Vec := [Mul(gz, dz), hz, Mul(sz, dz), Mul(Mul(dd, dz), Sub(t.zeta, t.zetaInv))];
    var ns: Vec := [Mul(gi, di), hi, Mul(si, di), 0];
    forall i | 0 <= i < 4 ensures Eval(zs, betas[i]) == 0 && Eval(ns, betas[i]) == 0 && Mul(betas[i], ha) == 0 {
      assert Undetected(p, t, e, betas[i]);
    }
    ZeroCoefficients(zs, betas);
    ZeroCoefficients(ns, betas);
    assert zs[0] == 0 && zs[1] == 0 && zs[2] == 0 && zs[3] == 0 && ns[0] == 0 && ns[1] == 0 && ns[2] == 0;
    assert betas[0] != betas[1];
    NoZeroDivisors(betas[0], ha);
    NoZeroDivisors(betas[1], ha);
    SubIsZero(t.zeta, t.alpha); SubIsZero(t.zetaInv, t.alpha); SubIsZero(t.zeta, t.zetaInv);
    NoZeroDivisors(gz, dz);
    NoZeroDivisors(sz, dz);
    NoZeroDivisors(Mul(dd, dz), Sub(t.zeta, t.zetaInv));
    NoZeroDivisors(dd, dz);
    NoZeroDivisors(gi, di);
    NoZeroDivisors(si, di);
    SubIsZero(Eval(p.g, t.zeta), e.gZeta); SubIsZero(Eval(p.g, t.zetaInv), e.gZetaInv);
    SubIsZero(Eval(p.h, t.zeta), e.hZeta); SubIsZero(Eval(p.h, t.zetaInv), e.hZetaInv);
    SubIsZero(Eval(p.h, t.alpha), e.hAlpha);
    SubIsZero(Eval(p.s, t.zeta), e.sZeta); SubIsZero(Eval(p.s, t.zetaInv), e.sZetaInv);
    SubIsZero(Eval(p.d, t.zeta), e.dZeta);
  }

  /** f - star, times X - a for every point a in the list. */
  function Lowered(f: Vec, star: Vec, x: Fe): Fe {
    Sub(Eval(f, x), Eval(star, x))
  }

  method SubtractStar(f: Vec, star: Vec) returns (u: UniPoly)
    ensures fresh(u) && |u.coeffs| == if |star| > |f| then |star| else |f|
    ensures forall x {:trigger Eval(u.coeffs, x)} :: Eval(u.coeffs, x) == Lowered(f, star, x)
  {
    hide Mul, Add, Sub, Neg, Eval, Combination, MaxLen;
    u := new UniPoly(f);
    OneLength(star);
    u.BatchAdd([star], [Neg(1)]);
    forall x ensures Eval(u.coeffs, x) == Lowered(f, star, x) {
      OneTerm(star, Neg(1), x);
      MinusOneTerm(Eval(f, x), Eval(star, x));
    }
  }

  lemma OneLength(p: Vec)
    ensures MaxLen([p]) == |p|
  {
    assert [p][1..] == [];
  }

  lemma OneTerm(p: Vec, s: Fe, x: Fe)
    ensures Combination([p], [s], x) == Mul(s, Eval(p, x))
  {
    hide Mul, Add, Eval;
    assert [p][1..] == [] && [s][1..] == [];
    AddZero(Mul(s, Eval(p, x)));
  }

  lemma MinusOneTerm(a: Fe, b: Fe)
    ensures Add(a, Mul(Neg(1), b)) == Sub(a, b)
  {
    hide Mul, Add;
    MinusOne(a, b);
  }

  lemma ThreeTerms(p: Vec, q: Vec, r: Vec, a: Fe, b: Fe, c: Fe, x: Fe, start: Fe)
    ensures Add(start, Combination([p, q, r], [a, b, c], x))
         == Add(Add(Add(start, Mul(a, Eval(p, x))), Mul(b, Eval(q, x))), Mul(c, Eval(r, x)))
  {
    hide Mul, Add, Eval;
    assert [p, q, r][1..] == [q, r] && [q, r][1..] == [r];
    assert [a, b, c][1..] == [b, c] && [b, c][1..] == [c];
    OneTerm(r, c, x);
    assert Combination([q, r], [b, c], x) == Add(Mul(b, Eval(q, x)), Combination([r], [c], x));
    AddAssoc(start, Mul(a, Eval(p, x)), Add(Mul(b, Eval(q, x)), Mul(c, Eval(r, x))));
    AddAssoc(Add(start, Mul(a, Eval(p, x))), Mul(b, Eval(q, x)), Mul(c, Eval(r, x)));
  }

  lemma AddNegIsSub(x: Fe, a: Fe)
    ensures Add(x, Neg(a)) == Sub(x, a)
  {
  }

  method TimesSpot(u: UniPoly, a: Fe)
    modifies u
    ensures |u.coeffs| == old(|u.coeffs|) + 1
    ensures forall x {:trigger Eval(u.coeffs, x)} :: Eval(u.coeffs, x) == Mul(Eval(old(u.coeffs), x), Sub(x, a))
  {
    hide Mul, Add, Sub, Neg, Eval;
    u.MultiplyByLinear(Neg(a));
    forall x ensures Eval(u.coeffs, x) == Mul(Eval(old(u.coeffs), x), Sub(x, a)) { AddNegIsSub(x, a); }
  }

  method ComputeM(p: Four, st: Four, t: Spots, beta: Fe, ghost n: nat) returns (m: UniPoly)
    requires |st.g| == |st.s| == 2 && |st.h| == 3 && |st.d| == 1
    requires n >= 1 && |p.g| <= n && |p.h| <= n && |p.s| <= n && |p.d| <= n
    ensures fresh(m) && 3 <= |m.coeffs| <= n + 2
    ensures forall x {:trigger Eval(m.coeffs, x)} :: Eval(m.coeffs, x) == MValue(p, st, t, beta, x)
  {
    hide Mul, Add, Sub, Eval, Combination, MaxLen;
    var beta2 := Mul(beta, beta);
    var beta3 := Mul(beta2, beta);
    var g := SubtractStar(p.g, st.g);
    var h := SubtractStar(p.h, st.h);
    var s := SubtractStar(p.s, st.s);
    var d := SubtractStar(p.d, st.d);
    TimesSpot(g, t.alpha);
    TimesSpot(s, t.alpha);
    TimesSpot(d, t.alpha);
    TimesSpot(d, t.zetaInv);
    ghost var g0 := g.coeffs;
    MaxLenFits([h.coeffs, s.coeffs, d.coeffs], n + 2);
    m := g;
    m.BatchAdd([h.coeffs, s.coeffs, d.coeffs], [beta, beta2, beta3]);
    forall x ensures Eval(m.coeffs, x) == MValue(p, st, t, beta, x) {
      ThreeTerms(h.coeffs, s.coeffs, d.coeffs, beta, beta2, beta3, x, Eval(g0, x));
    }
  }

  // ------------------------------------------------------------ the three divisions

  /** (x - alpha)(x - zeta)(x - zetaInv). */
  function Z(t: Spots, x: Fe): Fe {
    Mul(Mul(Sub(x, t.alpha), Sub(x, t.zeta)), Sub(x, t.zetaInv))
  }

  lemma RootOfQuotient(m: Vec, u: Fe, v: Fe)
    requires |m| > 0 && u != v && Eval(m, u) == 0 && Eval(m, v) == 0
    ensures Eval(Quotient(m, u), v) == 0
  {
    hide Mul, Add, Sub, Eval, Quotient;
    QuotientDivides(m, u, v);
    AddZero(Mul(Sub(v, u), Eval(Quotient(m, u), v)));
    NoZeroDivisors(Sub(v, u), Eval(Quotient(m, u), v));
    SubIsZero(v, u);
  }

  lemma DividedValue(m: Vec, u: Fe, x: Fe)
    requires |m| > 0 && Eval(m, u) == 0
    ensures Eval(m, x) == Mul(Sub(x, u), Eval(Quotient(m, u), x))
  {
    hide Mul, Add, Sub, Eval, Quotient;
    QuotientDivides(m, u, x);
    AddZero(Mul(Sub(x, u), Eval(Quotient(m, u), x)));
  }

  lemma ZAtSpots(t: Spots, x: Fe, y: Fe, z: Fe)
    ensures Mul(Z(t, t.alpha), x) == 0 && Mul(Z(t, t.zeta), y) == 0 && Mul(Z(t, t.zetaInv), z) == 0
  {
    hide Mul, Sub;
    SubIsZero(t.alpha, t.alpha);
    SubIsZero(t.zeta, t.zeta);
    SubIsZero(t.zetaInv, t.zetaInv);
    MulOne(Sub(t.alpha, t.zeta));
    MulOne(Sub(t.alpha, t.zetaInv));
    MulOne(Sub(t.zeta, t.alpha));
    MulOne(Sub(t.zeta, t.zetaInv));
    MulOne(Mul(Sub(t.zetaInv, t.alpha), Sub(t.zetaInv, t.zeta)));
    MulOne(x); MulOne(y); MulOne(z);
  }

  /** Dividing three times by synthetic division: no remainder exactly when the three
      distinct points are roots. */
  method DivideThrice(m: UniPoly, t: Spots) returns (rem1: Fe, rem2: Fe, rem3: Fe)
    requires |m.coeffs| >= 3
    modifies m
    ensures Apart(t) ==>
              (rem1 == 0 && rem2 == 0 && rem3 == 0
               <==> Eval(old(m.coeffs), t.alpha) == 0 && Eval(old(m.coeffs), t.zeta) == 0 && Eval(old(m.coeffs), t.zetaInv) == 0)
    ensures rem1 == 0 && rem2 == 0 && rem3 == 0 ==>
              forall x {:trigger Eval(m.coeffs, x)} :: Eval(old(m.coeffs), x) == Mul(Z(t, x), Eval(m.coeffs, x))
    ensures |m.coeffs| == old(|m.coeffs|) - 3
  {
    hide Mul, Add, Sub, Eval, Quotient;
    ghost var m0 := m.coeffs;
    rem1 := m.DivideByLinear(t.alpha);
    ghost var m1 := m.coeffs;
    rem2 := m.DivideByLinear(t.zeta);
    ghost var m2 := m.coeffs;
    rem3 := m.DivideByLinear(t.zetaInv);
    if Apart(t) && Eval(m0, t.alpha) == 0 && Eval(m0, t.zeta) == 0 && Eval(m0, t.zetaInv) == 0 {
      RootOfQuotient(m0, t.alpha, t.zeta);
      RootOfQuotient(m0, t.alpha, t.zetaInv);
      RootOfQuotient(m1, t.zeta, t.zetaInv);
    }
    if rem1 == 0 && rem2 == 0 && rem3 == 0 {
      forall x ensures Eval(m0, x) == Mul(Z(t, x), Eval(m.coeffs, x)) {
        DividedValue(m0, t.alpha, x);
        DividedValue(m1, t.zeta, x);
        DividedValue(m2, t.zetaInv, x);
        MulAssoc(Sub(x, t.alpha), Sub(x, t.zeta), Mul(Sub(x, t.zetaInv), Eval(m.coeffs, x)));
        MulAssoc(Mul(Sub(x, t.alpha), Sub(x, t.zeta)), Sub(x, t.zetaInv), Eval(m.coeffs, x));
      }
      ZAtSpots(t, Eval(m.coeffs, t.alpha), Eval(m.coeffs, t.zeta), Eval(m.coeffs, t.zetaInv));
    }
  }

  // ------------------------------------------------------------ the second quotient

  /** The weights of the four polynomials at z. */
  datatype Weights = Weights(g: Fe, h: Fe, s: Fe, d: Fe)

  function WeightsAt(t: Spots, beta: Fe, z: Fe): Weights {
    var s1 := Sub(z, t.alpha);
    Weights(s1, Mul(1, beta), Mul(s1, Mul(beta, beta)),
            Mul(Mul(s1, Sub(z, t.zetaInv)), Mul(Mul(beta, beta), beta)))
  }

  /** T(z), as the prover computes it. */
  function TAt(t: Spots, z: Fe): Fe {
    Mul(Mul(Sub(z, t.alpha), Sub(z, t.zetaInv)), Sub(z, t.zeta))
  }

  /** L(x): the weighted differences to the stars' values at z, less T(z) * W(x). */
  function LValue(p: Four, st: Four, k: Weights, tz: Fe, z: Fe, w: Fe, x: Fe): Fe {
    Sub(Add(Add(Add(Mul(k.g, Sub(Eval(p.g, x), Eval(st.g, z))), Mul(k.h, Sub(Eval(p.h, x), Eval(st.h, z)))),
                Mul(k.s, Sub(Eval(p.s, x), Eval(st.s, z)))),
            Mul(k.d, Sub(Eval(p.d, x), Eval(st.d, z)))),
        Mul(tz, w))
  }

  /** L vanishes at z because m(z) = T(z) * W(z). */
  lemma LVanishes(p: Four, st: Four, t: Spots, beta: Fe, z: Fe, w: Fe)
    requires MValue(p, st, t, beta, z) == Mul(Z(t, z), w)
    ensures LValue(p, st, WeightsAt(t, beta, z), TAt(t, z), z, w, z) == 0
  {
    hide Mul, Add, Sub, Eval;
    var (dg, dh, ds, dd) := (Sub(Eval(p.g, z), Eval(st.g, z)), Sub(Eval(p.h, z), Eval(st.h, z)),
                             Sub(Eval(p.s, z), Eval(st.s, z)), Sub(Eval(p.d, z), Eval(st.d, z)));
    var (a, i) := (Sub(z, t.alpha), Sub(z, t.zetaInv));
    MulOne(beta);
    MulComm(a, dg);
    WeightS(a, Mul(beta, beta), ds);
    WeightD(a, i, Mul(Mul(beta, beta), beta), dd);
    SwapFactors(a, i, Sub(z, t.zeta));
    SubIsZero(Mul(Z(t, z), w), Mul(Z(t, z), w));
  }

  lemma WeightS(a: Fe, b: Fe, d: Fe)
    ensures Mul(Mul(a, b), d) == Mul(b, Mul(d, a))
  {
    hide *;
    MulComm(a, b);
    MulAssoc(b, a, d);
    MulComm(a, d);
  }

  lemma WeightD(a: Fe, i: Fe, b: Fe, d: Fe)
    ensures Mul(Mul(Mul(a, i), b), d) == Mul(b, Mul(Mul(d, a), i))
  {
    hide *;
    WeightS(Mul(a, i), b, d);
    MulAssoc(d, a, i);
  }

  lemma SwapFactors(a: Fe, i: Fe, y: Fe)
    ensures Mul(Mul(a, i), y) == Mul(Mul(a, y), i)
  {
    hide *;
    MulAssoc(a, i, y);
    MulComm(i, y);
    MulAssoc(a, y, i);
  }

  /** Subtracts a constant from the constant coefficient. */
  function LowerConstant(f: Vec, c: Fe): (g: Vec)
    requires |f| > 0
    ensures |g| == |f|
  {
    f[0 := Sub(f[0], c)]
  }

  lemma LoweredConstant(f: Vec, c: Fe, x: Fe)
    requires |f| > 0
    ensures Eval(LowerConstant(f, c), x) == Sub(Eval(f, x), c)
  {
    hide Mul;
    assert LowerConstant(f, c)[1..] == f[1..];
    MoveConstant(f[0], c, Mul(x, Eval(f[1..], x)));
  }

  lemma MoveConstant(a: Fe, c: Fe, r: Fe)
    ensures Add(Sub(a, c), r) == Sub(Add(a, r), c)
  {
  }

  method ComputeL(p: Four, st: Four, k: Weights, tz: Fe, z: Fe, w: Vec) returns (l: UniPoly)
    requires |p.g| > 0 && |p.h| > 0 && |p.s| > 0 && |p.d| > 0
    ensures fresh(l) && |l.coeffs| > 0
    ensures |p.g| <= |l.coeffs| <= MaxLen([p.g, p.h, p.s, p.d, w])
    ensures forall x {:trigger Eval(l.coeffs, x)} :: Eval(l.coeffs, x) == LValue(p, st, k, tz, z, Eval(w, x), x)
  {
    hide Mul, Add, Sub, Neg, Eval, Combination, MaxLen;
    var (gz, hz, sz, dz) := (LowerConstant(p.g, Eval(st.g, z)), LowerConstant(p.h, Eval(st.h, z)),
                             LowerConstant(p.s, Eval(st.s, z)), LowerConstant(p.d, Eval(st.d, z)));
    l := new UniPoly(gz);
    l.Scale(k.g);
    ghost var l0 := l.coeffs;
    l.BatchAdd([hz, sz, dz], [k.h, k.s, k.d]);
    ghost var l1 := l.coeffs;
    l.BatchAdd([w], [Neg(tz)]);
    LongestOfFive(p, w, hz, sz, dz);
    forall x ensures Eval(l.coeffs, x) == LValue(p, st, k, tz, z, Eval(w, x), x) {
      ThreeTerms(hz, sz, dz, k.h, k.s, k.d, x, Eval(l0, x));
      OneTerm(w, Neg(tz), x);
      EvalScale(k.g, gz, x);
      LoweredConstant(p.g, Eval(st.g, z), x);
      LoweredConstant(p.h, Eval(st.h, z), x);
      LoweredConstant(p.s, Eval(st.s, z), x);
      LoweredConstant(p.d, Eval(st.d, z), x);
      NegTimes(Eval(l1, x), tz, Eval(w, x));
    }
  }

  lemma NegTimes(a: Fe, t: Fe, w: Fe)
    ensures Add(a, Mul(Neg(t), w)) == Sub(a, Mul(t, w))
  {
    hide Mul;
    NegOut(t, w);
    hide *;
    AddNegIsSub(a, Mul(t, w));
  }

  lemma NegOut(t: Fe, w: Fe)
    ensures Mul(Neg(t), w) == Neg(Mul(t, w))
  {
    hide Mul;
    SubMul(0, t, w);
    MulOne(w);
  }

  lemma LongestOfFive(p: Four, w: Vec, hz: Vec, sz: Vec, dz: Vec)
    requires |hz| == |p.h| && |sz| == |p.s| && |dz| == |p.d|
    ensures MaxLen([w]) == |w|
    ensures MaxLen([hz, sz, dz]) <= MaxLen([p.g, p.h, p.s, p.d, w])
    ensures |w| <= MaxLen([p.g, p.h, p.s, p.d, w]) && |p.g| <= MaxLen([p.g, p.h, p.s, p.d, w])
  {
    OneLength(w);
    var all := [p.g, p.h, p.s, p.d, w];
    assert all[4] == w && all[0] == p.g && all[1] == p.h && all[2] == p.s && all[3] == p.d;
    assert [hz, sz, dz][1..] == [sz, dz] && [sz, dz][1..] == [dz];
    OneLength(dz);
    assert MaxLen([sz, dz]) == if |sz| > MaxLen([dz]) then |sz| else MaxLen([dz]);
    assert MaxLen([hz, sz, dz]) == if |hz| > MaxLen([sz, dz]) then |hz| else MaxLen([sz, dz]);
  }

  // ------------------------------------------------------------------ the protocol

  datatype BatchArg = BatchArg(commW: Pt, commWPrime: Pt)

  datatype Commitments = Commitments(g: Pt, h: Pt, s: Pt, d: Pt)

  ghost predicate CommitmentsTrue(key: Key, p: Four, cm: Commitments)
    requires |p.g| <= |key.ck| && |p.h| <= |key.ck| && |p.s| <= |key.ck| && |p.d| <= |key.ck|
  {
    && cm.g == Commit(key, p.g, 0) && cm.h == Commit(key, p.h, 0)
    && cm.s == Commit(key, p.s, 0) && cm.d == Commit(key, p.d, 0)
  }

  /** The verifier's side: F + z * W'. */
  function LeftSide(g1: Pt, cm: Commitments, st: Four, t: Spots, arg: BatchArg, beta: Fe, z: Fe): Pt {
    var s1 := Sub(z, t.alpha);
    var s4 := Mul(Sub(z, t.zetaInv), Sub(z, t.alpha));
    var beta2 := Mul(beta, beta);
    var beta3 := Mul(Mul(beta, beta), beta);
    var scalar := Add(Add(Add(Mul(s1, Eval(st.g, z)), Mul(Mul(beta, 1), Eval(st.h, z))),
                          Mul(Mul(beta2, s1), Eval(st.s, z))), Mul(Mul(beta3, s4), Eval(st.d, z)));
    Msm([s1, Mul(beta, 1), Mul(beta2, s1), Mul(beta3, s4), Neg(scalar), Neg(Mul(s4, Sub(z, t.zeta))), z],
        [cm.g, cm.h, cm.s, cm.d, g1, arg.commW, arg.commWPrime])
  }

  lemma DotSeven(s: Vec, e: Vec)
    requires |s| == |e| == 7
    ensures Dot(s, e)
         == Add(Mul(s[0], e[0]), Add(Mul(s[1], e[1]), Add(Mul(s[2], e[2]), Add(Mul(s[3], e[3]),
            Add(Mul(s[4], e[4]), Add(Mul(s[5], e[5]), Add(Mul(s[6], e[6]), 0)))))))
  {
    hide Mul, Add;
    DotThree(s[4..], e[4..]);
    assert s[1..][1..][1..][1..] == s[4..] && e[1..][1..][1..][1..] == e[4..];
    assert Dot(s[1..][1..][1..], e[1..][1..][1..]) == Add(Mul(s[3], e[3]), Dot(s[4..], e[4..]));
    assert Dot(s[1..][1..], e[1..][1..]) == Add(Mul(s[2], e[2]), Dot(s[1..][1..][1..], e[1..][1..][1..]));
  }

  lemma DotThree(s: Vec, e: Vec)
    requires |s| == |e| == 3
    ensures Dot(s, e) == Add(Mul(s[0], e[0]), Add(Mul(s[1], e[1]), Add(Mul(s[2], e[2]), 0)))
  {
    hide Mul, Add;
    assert Dot(s[1..][1..][1..], e[1..][1..][1..]) == 0;
    assert Dot(s[1..][1..], e[1..][1..]) == Add(Mul(s[2], e[2]), 0);
  }

  /** The seven exponents add up to L(tau) + z * W'(tau). */
  lemma Exponents(k: Weights, tz: Fe, z: Fe, pg: Fe, ph: Fe, ps: Fe, pd: Fe, sg: Fe, sh: Fe, ss: Fe, sd: Fe, w: Fe, v: Fe)
    ensures Add(Mul(k.g, pg), Add(Mul(k.h, ph), Add(Mul(k.s, ps), Add(Mul(k.d, pd),
              Add(Mul(Neg(Add(Add(Add(Mul(k.g, sg), Mul(k.h, sh)), Mul(k.s, ss)), Mul(k.d, sd))), 1),
                  Add(Mul(Neg(tz), w), Add(Mul(z, v), 0)))))))
         == Add(Sub(Add(Add(Add(Mul(k.g, Sub(pg, sg)), Mul(k.h, Sub(ph, sh))), Mul(k.s, Sub(ps, ss))), Mul(k.d, Sub(pd, sd))),
                    Mul(tz, w)), Mul(z, v))
  {
    hide Mul, Add, Sub, Neg;
    MulSub(k.g, pg, sg);
    MulSub(k.h, ph, sh);
    MulSub(k.s, ps, ss);
    MulSub(k.d, pd, sd);
    NegOut(tz, w);
    MulOne(Neg(Add(Add(Add(Mul(k.g, sg), Mul(k.h, sh)), Mul(k.s, ss)), Mul(k.d, sd))));
    CollectSums(Mul(k.g, pg), Mul(k.h, ph), Mul(k.s, ps), Mul(k.d, pd), Mul(k.g, sg), Mul(k.h, sh), Mul(k.s, ss),
                Mul(k.d, sd), Mul(tz, w), Mul(z, v));
  }

  lemma CollectSums(a: Fe, b: Fe, c: Fe, d: Fe, e: Fe, f: Fe, g: Fe, h: Fe, t: Fe, v: Fe)
    ensures Add(a, Add(b, Add(c, Add(d, Add(Neg(Add(Add(Add(e, f), g), h)), Add(Neg(t), Add(v, 0)))))))
         == Add(Sub(Add(Add(Add(Sub(a, e), Sub(b, f)), Sub(c, g)), Sub(d, h)), t), v)
  {
    hide *;
    assert Neg(t) == Sub(0, t) && Neg(Add(Add(Add(e, f), g), h)) == Sub(0, Add(Add(Add(e, f), g), h)) by {
      HyperKzg.NegIs(t);
      HyperKzg.NegIs(Add(Add(Add(e, f), g), h));
    }
    Hom();
    ROf(a); ROf(b); ROf(c); ROf(d); ROf(e); ROf(f); ROf(g); ROf(h); ROf(t); ROf(v); ROf(0);
    CollectSumsI(a, b, c, d, e, f, g, h, t, v);
  }

  lemma CollectSumsI(a: int, b: int, c: int, d: int, e: int, f: int, g: int, h: int, t: int, v: int)
    ensures IAdd(a, IAdd(b, IAdd(c, IAdd(d, IAdd(ISub(0, IAdd(IAdd(IAdd(e, f), g), h)), IAdd(ISub(0, t), IAdd(v, 0)))))))
         == IAdd(ISub(IAdd(IAdd(IAdd(ISub(a, e), ISub(b, f)), ISub(c, g)), ISub(d, h)), t), v)
  {
  }

  /** The verifier's side for any two committed vectors, in the exponent. */
  lemma AnyLeftSide(key: Key, g1: Pt, tau: Fe, p: Four, cm: Commitments, st: Four, t: Spots, beta: Fe, z: Fe, w: Vec, v: Vec)
    requires |p.g| <= |key.ck| && |p.h| <= |key.ck| && |p.s| <= |key.ck| && |p.d| <= |key.ck|
    requires |w| <= |key.ck| && |v| <= |key.ck|
    requires HyperKzg.IsSrs(key.ck, tau, g1) && CommitmentsTrue(key, p, cm)
    ensures LeftSide(g1, cm, st, t, BatchArg(Commit(key, w, 0), Commit(key, v, 0)), beta, z)
         == Smul(Add(LValue(p, st, WeightsAt(t, beta, z), TAt(t, z), z, Eval(w, tau), tau), Mul(z, Eval(v, tau))), g1)
  {
    hide Mul, Add, Sub, Neg, Eval, Msm, Smul, Commit, Dot, HyperKzg.IsSrs;
    CommitExponents(key, g1, tau, p, cm, w, v);
    var (wt, vt) := (Eval(w, tau), Eval(v, tau));
    var e: Vec := [Eval(p.g, tau), Eval(p.h, tau), Eval(p.s, tau), Eval(p.d, tau), 1, wt, vt];
    var k := WeightsAt(t, beta, z);
    SameScalars(st, t, beta, z);
    var scalar := Add(Add(Add(Mul(k.g, Eval(st.g, z)), Mul(k.h, Eval(st.h, z))), Mul(k.s, Eval(st.s, z))), Mul(k.d, Eval(st.d, z)));
    var s: Vec := [k.g, k.h, k.s, k.d, Neg(scalar), Neg(TAt(t, z)), z];
    SmulSmall(g1);
    HyperKzg.MsmOfMultiples(s, [cm.g, cm.h, cm.s, cm.d, g1, Commit(key, w, 0), Commit(key, v, 0)], e, g1);
    DotSeven(s, e);
    Exponents(k, TAt(t, z), z, e[0], e[1], e[2], e[3], Eval(st.g, z), Eval(st.h, z), Eval(st.s, z), Eval(st.d, z), wt, vt);
  }

  /** For commitments and witnesses in the exponent, the verifier's side is tau * W'. */
  lemma PairingHolds(key: Key, g1: Pt, tau: Fe, p: Four, cm: Commitments, st: Four, t: Spots, beta: Fe, z: Fe, w: Vec, l: Vec)
    requires |p.g| <= |key.ck| && |p.h| <= |key.ck| && |p.s| <= |key.ck| && |p.d| <= |key.ck|
    requires |w| <= |key.ck| && 0 < |l| <= |key.ck|
    requires HyperKzg.IsSrs(key.ck, tau, g1) && CommitmentsTrue(key, p, cm)
    requires Eval(l, tau) == LValue(p, st, WeightsAt(t, beta, z), TAt(t, z), z, Eval(w, tau), tau) && Eval(l, z) == 0
    ensures LeftSide(g1, cm, st, t, BatchArg(Commit(key, w, 0), Commit(key, Quotient(l, z), 0)), beta, z)
         == Smul(tau, Commit(key, Quotient(l, z), 0))
  {
    hide *;
    var v := Quotient(l, z);
    AnyLeftSide(key, g1, tau, p, cm, st, t, beta, z, w, v);
    CommitExponents(key, g1, tau, p, cm, w, v);
    DividedValue(l, z, tau);
    TauTimes(tau, z, Eval(v, tau));
    SmulFMul(tau, Eval(v, tau), g1);
  }

  lemma CommitExponents(key: Key, g1: Pt, tau: Fe, p: Four, cm: Commitments, w: Vec, v: Vec)
    requires |p.g| <= |key.ck| && |p.h| <= |key.ck| && |p.s| <= |key.ck| && |p.d| <= |key.ck|
    requires |w| <= |key.ck| && |v| <= |key.ck|
    requires HyperKzg.IsSrs(key.ck, tau, g1) && CommitmentsTrue(key, p, cm)
    ensures cm.g == Smul(Eval(p.g, tau), g1) && cm.h == Smul(Eval(p.h, tau), g1)
    ensures cm.s == Smul(Eval(p.s, tau), g1) && cm.d == Smul(Eval(p.d, tau), g1)
    ensures Commit(key, w, 0) == Smul(Eval(w, tau), g1) && Commit(key, v, 0) == Smul(Eval(v, tau), g1)
  {
    hide Eval, Smul, Commit, HyperKzg.IsSrs;
    HyperKzg.CommitIsValue(key, p.g, tau, g1);
    HyperKzg.CommitIsValue(key, p.h, tau, g1);
    HyperKzg.CommitIsValue(key, p.s, tau, g1);
    HyperKzg.CommitIsValue(key, p.d, tau, g1);
    HyperKzg.CommitIsValue(key, w, tau, g1);
    HyperKzg.CommitIsValue(key, v, tau, g1);
  }

  /** Prover and verifier multiply the same factors in different orders. */
  lemma SameScalars(st: Four, t: Spots, beta: Fe, z: Fe)
    ensures var k := WeightsAt(t, beta, z);
      var s1 := Sub(z, t.alpha);
      var s4 := Mul(Sub(z, t.zetaInv), Sub(z, t.alpha));
      && k.g == s1 && k.h == Mul(beta, 1) && k.s == Mul(Mul(beta, beta), s1)
      && k.d == Mul(Mul(Mul(beta, beta), beta), s4) && TAt(t, z) == Mul(s4, Sub(z, t.zeta))
  {
    hide Mul, Sub;
    var s1 := Sub(z, t.alpha);
    MulComm(beta, 1);
    MulComm(Mul(beta, beta), s1);
    MulComm(Sub(z, t.zetaInv), s1);
    MulComm(Mul(Mul(beta, beta), beta), Mul(s1, Sub(z, t.zetaInv)));
  }

  lemma TauTimes(tau: Fe, z: Fe, v: Fe)
    ensures Add(Mul(Sub(tau, z), v), Mul(z, v)) == Mul(tau, v)
  {
    hide *;
    SubMul(tau, z, v);
    AddSub(Mul(tau, v), Mul(z, v));
  }

  /** `None` is a failed assertion on a remainder, which happens exactly when some claimed
      value is false and beta does not hide it.  The three points must be distinct, or the
      interpolation divides by zero. */
  method GenerateBatchEvaluateArg(key: Key, p: Four, t: Spots, e: Evals, tr: Transcript<Pt>,
                                  ghost g1: Pt, ghost tau: Fe, ghost cm: Commitments)
    returns (r: Option<BatchArg>)
    requires Apart(t) && |p.g| > 0 && |p.h| > 0 && |p.s| > 0 && |p.d| > 0
    requires |p.g| <= |key.ck| && |p.h| <= |key.ck| && |p.s| <= |key.ck| && |p.d| <= |key.ck|
    requires HyperKzg.IsSrs(key.ck, tau, g1) && CommitmentsTrue(key, p, cm)
    modifies tr
    ensures var (beta, log) := (tr.oracle(old(tr.log)), old(tr.log));
      && (r.Some? <==> Undetected(p, t, e, beta))
      && (r.Some? ==>
            && tr.log == log + [Squeezed, Said(r.value.commW), Squeezed]
            && LeftSide(g1, cm, Stars(t, e), t, r.value, beta, tr.oracle(log + [Squeezed, Said(r.value.commW)]))
               == Smul(tau, r.value.commWPrime))
  {
    hide *;
    var beta := tr.Squeeze();
    StarSizes(t, e);
    var st := ComputeStars(t, e);
    var m := ComputeM(p, st, t, beta, |key.ck|);
    ghost var m0 := m.coeffs;
    MVanishesExactly(p, t, e, beta);
    ApartIs(t);
    var rem1, rem2, rem3 := DivideThrice(m, t);
    if rem1 != 0 || rem2 != 0 || rem3 != 0 {
      return None;
    }
    var w := m.coeffs;
    var commW := Commit(key, w, 0);
    tr.Absorb(commW);
    assert tr.log == old(tr.log) + [Squeezed, Said(commW)];
    var z := tr.Squeeze();
    var k := WeightsAt(t, beta, z);
    var l := ComputeL(p, st, k, TAt(t, z), z, w);
    LongestFits(p, w, |key.ck|);
    ghost var l0 := l.coeffs;
    assert Eval(m0, z) == Mul(Z(t, z), Eval(w, z));
    LVanishes(p, st, t, beta, z, Eval(w, z));
    assert Eval(l0, z) == 0;
    assert Eval(l0, tau) == LValue(p, st, k, TAt(t, z), z, Eval(w, tau), tau);
    PairingHolds(key, g1, tau, p, cm, st, t, beta, z, w, l0);
    var rem := l.DivideByLinear(z);
    if rem != 0 {
      assert false;
      return None;
    }
    r := Some(BatchArg(commW, Commit(key, l.coeffs, 0)));
  }

  /** The two left-hand sides of the pairing check. */
  method ExtractPairing(cm: Commitments, t: Spots, e: Evals, arg: BatchArg, g1: Pt, tr: Transcript<Pt>)
    returns (lhs1: Pt, lhs2: Pt)
    requires Apart(t)
    modifies tr
    ensures var (beta, z) := (tr.oracle(old(tr.log)), tr.oracle(old(tr.log) + [Squeezed, Said(arg.commW)]));
      lhs1 == LeftSide(g1, cm, Stars(t, e), t, arg, beta, z) && lhs2 == arg.commWPrime
  {
    hide *;
    var beta := tr.Squeeze();
    tr.Absorb(arg.commW);
    assert tr.log == old(tr.log) + [Squeezed, Said(arg.commW)];
    var z := tr.Squeeze();
    ApartIs(t);
    var st := ComputeStars(t, e);
    lhs1 := LeftSide(g1, cm, st, t, arg, beta, z);
    lhs2 := arg.commWPrime;
  }

  /** Prover and verifier, each with a transcript in the same state: the run ends in an
      accepted pairing check exactly when beta does not expose a false claim, and in
      particular whenever all claims are true. */
  method OpenAndCheck(key: Key, p: Four, t: Spots, e: Evals, g1: Pt, tau: Fe, cm: Commitments,
                      trP: Transcript<Pt>, trV: Transcript<Pt>)
    returns (accepted: bool)
    requires Apart(t) && |p.g| > 0 && |p.h| > 0 && |p.s| > 0 && |p.d| > 0
    requires |p.g| <= |key.ck| && |p.h| <= |key.ck| && |p.s| <= |key.ck| && |p.d| <= |key.ck|
    requires HyperKzg.IsSrs(key.ck, tau, g1) && CommitmentsTrue(key, p, cm)
    requires trP != trV && trP.oracle == trV.oracle && trP.log == trV.log
    modifies trP, trV
    ensures accepted <==> Undetected(p, t, e, trP.oracle(old(trP.log)))
    ensures TrueEvals(p, t, e) ==> accepted
  {
    hide *;
    TrueIsUndetected(p, t, e, trP.oracle(trP.log));
    var r := GenerateBatchEvaluateArg(key, p, t, e, trP, g1, tau, cm);
    if r.None? {
      return false;
    }
    var lhs1, lhs2 := ExtractPairing(cm, t, e, r.value, g1, trV);
    accepted := lhs1 == Smul(tau, lhs2);
  }

  lemma TrueIsUndetected(p: Four, t: Spots, e: Evals, beta: Fe)
    requires Apart(t)
    ensures TrueEvals(p, t, e) ==> Undetected(p, t, e, beta)
  {
    hide *;
    MVanishesExactly(p, t, e, beta);
    if TrueEvals(p, t, e) { MVanishes(p, t, e, beta); }
  }

  lemma ApartIs(t: Spots)
    requires Apart(t)
    ensures t.zeta != t.zetaInv && t.zeta != t.alpha && t.zetaInv != t.alpha
  {
  }

  lemma StarSizes(t: Spots, e: Evals)
    ensures var st := Stars(t, e); |st.g| == |st.s| == 2 && |st.h| == 3 && |st.d| == 1
  {
  }

  method ComputeStars(t: Spots, e: Evals) returns (st: Four)
    requires Apart(t)
    ensures st == Stars(t, e)
  {
    hide Interpolate;
    var g := FromEvalsWithXs([t.zeta, t.zetaInv], [e.gZeta, e.gZetaInv]);
    var h := FromEvalsWithXs([t.zeta, t.zetaInv, t.alpha], [e.hZeta, e.hZetaInv, e.hAlpha]);
    var s := FromEvalsWithXs([t.zeta, t.zetaInv], [e.sZeta, e.sZetaInv]);
    var d := FromEvalsWithXs([t.zeta], [e.dZeta]);
    st := Four(g, h, s, d);
  }

  lemma LongestFits(p: Four, w: Vec, n: nat)
    requires |p.g| <= n && |p.h| <= n && |p.s| <= n && |p.d| <= n && |w| <= n
    ensures MaxLen([p.g, p.h, p.s, p.d, w]) <= n
  {
    MaxLenFits([p.g, p.h, p.s, p.d, w], n);
  }

  lemma {:induction false} MaxLenFits(polys: seq<Vec>, n: nat)
    requires forall i :: 0 <= i < |polys| ==> |polys[i]| <= n
    ensures MaxLen(polys) <= n
  {
    if |polys| > 0 { MaxLenFits(polys[1..], n); }
  }
}
