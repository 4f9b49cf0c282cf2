/** What an accepted pairing check of the batched opening guarantees for a prover whose
    two witnesses are commitments to arbitrary vectors. */
module BatchOpeningSoundness {
  import opened PrimeField
  import opened FieldLaws
  import opened PrimeGroup
  import opened Vectors
  import opened Pedersen
  import opened Polynomials
  import opened Interpolation
  import opened BatchOpening
  import HyperKzg

  /** The check, as an equation at tau: L(tau) = (tau - z) v(tau). */
  predicate Passes(p: Four, t: Spots, e: Evals, beta: Fe, z: Fe, w: Vec, v: Vec, tau: Fe) {
    LValue(p, Stars(t, e), WeightsAt(t, beta, z), TAt(t, z), z, Eval(w, tau), tau) == Mul(Sub(tau, z), Eval(v, tau))
  }

  /** For commitments to any two vectors, the pairings agree exactly when the equation
      holds at tau. */
  lemma CheckExactly(key: Key, g1: Pt, tau: Fe, p: Four, cm: Commitments, t: Spots, e: Evals, beta: Fe, z: Fe, w: Vec,
                     v: Vec)
    requires |p.g| <= |key.ck| && |p.h| <= |key.ck| && |p.s| <= |key.ck| && |p.d| <= |key.ck|
    requires |w| <= |key.ck| && |v| <= |key.ck| && g1 != O
    requires HyperKzg.IsSrs(key.ck, tau, g1) && CommitmentsTrue(key, p, cm)
    ensures LeftSide(g1, cm, Stars(t, e), t, BatchArg(Commit(key, w, 0), Commit(key, v, 0)), beta, z)
         == Smul(tau, Commit(key, v, 0))
      <==> Passes(p, t, e, beta, z, w, v, tau)
  {
    hide Mul, Add, Sub, Eval, Smul, Commit, HyperKzg.IsSrs, LeftSide, LValue, Stars, WeightsAt, TAt;
    var vt := Eval(v, tau);
    AnyLeftSide(key, g1, tau, p, cm, Stars(t, e), t, beta, z, w, v);
    CommitExponents(key, g1, tau, p, cm, w, v);
    SmulFMul(tau, vt, g1);
    TauTimes(tau, z, vt);
    var l := LValue(p, Stars(t, e), WeightsAt(t, beta, z), TAt(t, z), z, Eval(w, tau), tau);
    SameMultiples(Add(l, Mul(z, vt)), Mul(tau, vt), g1);
    AddCancel(l, Mul(Sub(tau, z), vt), Mul(z, vt));
  }

  lemma SameMultiples(x: Fe, y: Fe, g: Pt)
    requires g != O
    ensures Smul(x, g) == Smul(y, g) <==> x == y
  {
    hide *;
    SmulFSub(x, y, g);
    MinusIsO(Smul(x, g), Smul(y, g));
    SmulIsO(Sub(x, y), g);
    SubIsZero(x, y);
  }

  // ------------------------------------------------------------------ enough taus

  /** L as a polynomial: the weighted vectors, less a constant and less tz times w. */
  function LPoly(p: Four, st: Four, k: Weights, tz: Fe, z: Fe, w: Vec, n: nat): (f: Vec)
    requires |p.g| <= n && |p.h| <= n && |p.s| <= n && |p.d| <= n && |w| <= n && n >= 1
    ensures |f| == n
  {
    var scalar := Add(Add(Add(Mul(k.g, Eval(st.g, z)), Mul(k.h, Eval(st.h, z))), Mul(k.s, Eval(st.s, z))), Mul(k.d, Eval(st.d, z)));
    MulAddVec(MulAddVec(MulAddVec(MulAddVec(MulAddVec(MulAddVec(Zeros(n), p.g, k.g), p.h, k.h), p.s, k.s), p.d, k.d),
                        [scalar], Sub(0, 1)), w, Sub(0, tz))
  }

  lemma LPolyAt(p: Four, st: Four, k: Weights, tz: Fe, z: Fe, w: Vec, n: nat, x: Fe)
    requires |p.g| <= n && |p.h| <= n && |p.s| <= n && |p.d| <= n && |w| <= n && n >= 1
    ensures Eval(LPoly(p, st, k, tz, z, w, n), x) == LValue(p, st, k, tz, z, Eval(w, x), x)
  {
    hide Mul, Add, Sub, Eval, MulAddVec, Zeros;
    var scalar := Add(Add(Add(Mul(k.g, Eval(st.g, z)), Mul(k.h, Eval(st.h, z))), Mul(k.s, Eval(st.s, z))), Mul(k.d, Eval(st.d, z)));
    var a := MulAddVec(Zeros(n), p.g, k.g);
    var b := MulAddVec(a, p.h, k.h);
    var c := MulAddVec(b, p.s, k.s);
    var d := MulAddVec(c, p.d, k.d);
    var l := MulAddVec(d, [scalar], Sub(0, 1));
    EvalZeros(n, x);
    EvalMulAddVec(Zeros(n), p.g, k.g, x);
    AddZero(Mul(k.g, Eval(p.g, x)));
    EvalMulAddVec(a, p.h, k.h, x);
    EvalMulAddVec(b, p.s, k.s, x);
    EvalMulAddVec(c, p.d, k.d, x);
    EvalMulAddVec(d, [scalar], Sub(0, 1), x);
    EvalOne(scalar, x);
    EvalMulAddVec(l, w, Sub(0, tz), x);
    Differences(k, Eval(p.g, x), Eval(p.h, x), Eval(p.s, x), Eval(p.d, x), Eval(st.g, z), Eval(st.h, z), Eval(st.s, z), Eval(st.d, z),
                tz, Eval(w, x));
  }

  lemma Differences(k: Weights, g: Fe, h: Fe, s: Fe, d: Fe, g': Fe, h': Fe, s': Fe, d': Fe, tz: Fe, w: Fe)
    ensures Add(Add(Add(Add(Add(Mul(k.g, g), Mul(k.h, h)), Mul(k.s, s)), Mul(k.d, d)),
                    Mul(Sub(0, 1), Add(Add(Add(Mul(k.g, g'), Mul(k.h, h')), Mul(k.s, s')), Mul(k.d, d')))), Mul(Sub(0, tz), w))
         == Sub(Add(Add(Add(Mul(k.g, Sub(g, g')), Mul(k.h, Sub(h, h'))), Mul(k.s, Sub(s, s'))), Mul(k.d, Sub(d, d'))), Mul(tz, w))
  {
    hide *;
    MulSub(k.g, g, g');
    MulSub(k.h, h, h');
    MulSub(k.s, s, s');
    MulSub(k.d, d, d');
    SubMul(0, tz, w);
    MulOne(w);
    var c := Add(Add(Add(Mul(k.g, g'), Mul(k.h, h')), Mul(k.s, s')), Mul(k.d, d'));
    SubMul(0, 1, c);
    MulOne(c);
    CollectDifferences(Mul(k.g, g), Mul(k.h, h), Mul(k.s, s), Mul(k.d, d), Mul(k.g, g'), Mul(k.h, h'), Mul(k.s, s'),
                       Mul(k.d, d'), Mul(tz, w));
  }

  lemma CollectDifferences(a: Fe, b: Fe, c: Fe, d: Fe, e: Fe, f: Fe, g: Fe, h: Fe, t: Fe)
    ensures Add(Add(Add(Add(Add(a, b), c), d), Sub(0, Add(Add(Add(e, f), g), h))), Sub(0, t))
      == Sub(Add(Add(Add(Sub(a, e), Sub(b, f)), Sub(c, g)), Sub(d, h)), t)
  {
    hide *;
    Hom();
    ROf(a); ROf(b); ROf(c); ROf(d); ROf(e); ROf(f); ROf(g); ROf(h); ROf(t); ROf(0);
    CollectDifferencesI(a, b, c, d, e, f, g, h, t);
  }

  lemma CollectDifferencesI(a: int, b: int, c: int, d: int, e: int, f: int, g: int, h: int, t: int)
    ensures IAdd(IAdd(IAdd(IAdd(IAdd(a, b), c), d), ISub(0, IAdd(IAdd(IAdd(e, f), g), h))), ISub(0, t))
      == ISub(IAdd(IAdd(IAdd(ISub(a, e), ISub(b, f)), ISub(c, g)), ISub(d, h)), t)
  {
  }

  lemma LineValue(v: Vec, z: Fe, x: Fe)
    ensures Eval(TimesLine(v, Sub(0, z), Sub(1, z)), x) == Mul(Sub(x, z), Eval(v, x))
  {
    hide Mul, Sub, Eval, TimesLine, At;
    EvalTimesLine(v, Sub(0, z), Sub(1, z), x);
    ShiftedLine(z, x);
    MulComm(Eval(v, x), Sub(x, z));
  }

  /** Passing at more values of tau than the degrees allow makes L vanish at z, so that m(z)
      is the product the opening claims. */
  lemma ManyTaus(p: Four, t: Spots, e: Evals, beta: Fe, z: Fe, w: Vec, v: Vec, taus: seq<Fe>)
    requires |p.g| <= |taus| && |p.h| <= |taus| && |p.s| <= |taus| && |p.d| <= |taus| && |w| <= |taus| && |v| < |taus|
    requires Distinct(taus) && forall k :: 0 <= k < |taus| ==> Passes(p, t, e, beta, z, w, v, taus[k])
    ensures MValue(p, Stars(t, e), t, beta, z) == Mul(Z(t, z), Eval(w, z))
  {
    hide Mul, Sub, Eval, LValue, LPoly, Stars, TimesLine, MValue, WeightsAt, TAt, Z;
    var (st, k, tz, n) := (Stars(t, e), WeightsAt(t, beta, z), TAt(t, z), |taus|);
    var (f, h) := (LPoly(p, st, k, tz, z, w, n), TimesLine(v, Sub(0, z), Sub(1, z)));
    forall i | 0 <= i < n ensures Eval(f, taus[i]) == Eval(h, taus[i]) {
      assert Passes(p, t, e, beta, z, w, v, taus[i]);
      LPolyAt(p, st, k, tz, z, w, n, taus[i]);
      LineValue(v, z, taus[i]);
    }
    AgreeLonger(f, h, taus);
    assert Eval(f, z) == Eval(h, z);
    LPolyAt(p, st, k, tz, z, w, n, z);
    LineValue(v, z, z);
    SubIsZero(z, z);
    MulOne(Eval(v, z));
    LValueAtZ(p, st, t, beta, z, Eval(w, z));
  }

  lemma LValueAtZ(p: Four, st: Four, t: Spots, beta: Fe, z: Fe, w: Fe)
    ensures LValue(p, st, WeightsAt(t, beta, z), TAt(t, z), z, w, z) == Sub(MValue(p, st, t, beta, z), Mul(Z(t, z), w))
    ensures LValue(p, st, WeightsAt(t, beta, z), TAt(t, z), z, w, z) == 0 ==> MValue(p, st, t, beta, z) == Mul(Z(t, z), w)
  {
    hide Mul, Add, Sub, Eval;
    var (dg, dh, ds, dd) := (Sub(Eval(p.g, z), Eval(st.g, z)), Sub(Eval(p.h, z), Eval(st.h, z)),
                             Sub(Eval(p.s, z), Eval(st.s, z)), Sub(Eval(p.d, z), Eval(st.d, z)));
    var (a, i) := (Sub(z, t.alpha), Sub(z, t.zetaInv));
    MulOne(beta);
    MulComm(a, dg);
    WeightS(a, Mul(beta, beta), ds);
    WeightD(a, i, Mul(Mul(beta, beta), beta), dd);
    SwapFactors(a, i, Sub(z, t.zeta));
    SubIsZero(MValue(p, st, t, beta, z), Mul(Z(t, z), w));
  }

  // -------------------------------------------------------------------- enough zs

  /** f - star, padded to length n. */
  function Less(f: Vec, star: Vec, n: nat): (d: Vec)
    requires |f| <= n && |star| <= n
    ensures |d| == n
  {
    MulAddVec(MulAddVec(Zeros(n), f, 1), star, Sub(0, 1))
  }

  lemma LessAt(f: Vec, star: Vec, n: nat, x: Fe)
    requires |f| <= n && |star| <= n
    ensures Eval(Less(f, star, n), x) == Sub(Eval(f, x), Eval(star, x))
  {
    hide Mul, Add, Sub, Eval, MulAddVec, Zeros;
    EvalZeros(n, x);
    EvalMulAddVec(Zeros(n), f, 1, x);
    MulOne(Eval(f, x));
    AddZero(Eval(f, x));
    EvalMulAddVec(MulAddVec(Zeros(n), f, 1), star, Sub(0, 1), x);
    MinusOne(Eval(f, x), Eval(star, x));
  }

  /** f times X - u. */
  function TimesRoot(f: Vec, u: Fe): (g: Vec)
    ensures |g| == |f| + 1
  {
    TimesLine(f, Sub(0, u), Sub(1, u))
  }

  /** m as a polynomial. */
  function MPoly(p: Four, st: Four, t: Spots, beta: Fe, n: nat): (f: Vec)
    requires |p.g| <= n && |p.h| <= n && |p.s| <= n && |p.d| <= n
    requires |st.g| <= n && |st.h| <= n && |st.s| <= n && |st.d| <= n
    ensures |f| == n + 2
  {
    MulAddVec(MulAddVec(MulAddVec(MulAddVec(Zeros(n + 2), TimesRoot(Less(p.g, st.g, n), t.alpha), 1), Less(p.h, st.h, n), beta),
                        TimesRoot(Less(p.s, st.s, n), t.alpha), Mul(beta, beta)),
              TimesRoot(TimesRoot(Less(p.d, st.d, n), t.alpha), t.zetaInv), Mul(Mul(beta, beta), beta))
  }

  lemma MPolyAt(p: Four, st: Four, t: Spots, beta: Fe, n: nat, x: Fe)
    requires |p.g| <= n && |p.h| <= n && |p.s| <= n && |p.d| <= n
    requires |st.g| <= n && |st.h| <= n && |st.s| <= n && |st.d| <= n
    ensures Eval(MPoly(p, st, t, beta, n), x) == MValue(p, st, t, beta, x)
  {
    hide Mul, Add, Sub, Eval, MulAddVec, Zeros, TimesRoot, Less;
    var (g, s) := (TimesRoot(Less(p.g, st.g, n), t.alpha), TimesRoot(Less(p.s, st.s, n), t.alpha));
    var d := TimesRoot(TimesRoot(Less(p.d, st.d, n), t.alpha), t.zetaInv);
    var a := MulAddVec(Zeros(n + 2), g, 1);
    var b := MulAddVec(a, Less(p.h, st.h, n), beta);
    var c := MulAddVec(b, s, Mul(beta, beta));
    LessAt(p.g, st.g, n, x);
    LessAt(p.h, st.h, n, x);
    LessAt(p.s, st.s, n, x);
    LessAt(p.d, st.d, n, x);
    RootValue(Less(p.g, st.g, n), t.alpha, x);
    RootValue(Less(p.s, st.s, n), t.alpha, x);
    RootValue(Less(p.d, st.d, n), t.alpha, x);
    RootValue(TimesRoot(Less(p.d, st.d, n), t.alpha), t.zetaInv, x);
    EvalZeros(n + 2, x);
    EvalMulAddVec(Zeros(n + 2), g, 1, x);
    MulOne(Eval(g, x));
    AddZero(Eval(g, x));
    EvalMulAddVec(a, Less(p.h, st.h, n), beta, x);
    EvalMulAddVec(b, s, Mul(beta, beta), x);
    EvalMulAddVec(c, d, Mul(Mul(beta, beta), beta), x);
  }

  lemma RootValue(f: Vec, u: Fe, x: Fe)
    ensures Eval(TimesRoot(f, u), x) == Mul(Eval(f, x), Sub(x, u))
  {
    hide Mul, Sub, Eval, TimesLine, At;
    EvalTimesLine(f, Sub(0, u), Sub(1, u), x);
    ShiftedLine(u, x);
  }

  /** If m equals T times one committed polynomial at more values of z than the degrees allow,
      it vanishes at the three points. */
  lemma ManyZs(p: Four, t: Spots, e: Evals, beta: Fe, w: Vec, zs: seq<Fe>)
    requires Apart(t) && Distinct(zs) && |zs| >= 5 && |w| + 3 <= |zs|
    requires |p.g| + 2 <= |zs| && |p.h| + 2 <= |zs| && |p.s| + 2 <= |zs| && |p.d| + 2 <= |zs|
    requires forall i :: 0 <= i < |zs| ==> MValue(p, Stars(t, e), t, beta, zs[i]) == Mul(Z(t, zs[i]), Eval(w, zs[i]))
    ensures Undetected(p, t, e, beta)
  {
    hide Mul, Sub, Eval, Stars, MValue, Z, Undetected, MPoly, TimesRoot, Apart;
    var (st, n) := (Stars(t, e), |zs| - 2);
    StarSizes(t, e);
    var f := MPoly(p, st, t, beta, n);
    var h := TimesRoot(TimesRoot(TimesRoot(w, t.alpha), t.zeta), t.zetaInv);
    forall x: Fe ensures Eval(f, x) == MValue(p, st, t, beta, x) && Eval(h, x) == Mul(Z(t, x), Eval(w, x)) {
      MPolyAt(p, st, t, beta, n, x);
      VanishingValue(w, t, x);
    }
    AgreeLonger(f, h, zs);
    AtSpot(f, h, t.alpha);
    AtSpot(f, h, t.zeta);
    AtSpot(f, h, t.zetaInv);
    ZAtSpots(t, Eval(w, t.alpha), Eval(w, t.zeta), Eval(w, t.zetaInv));
    MVanishesExactly(p, t, e, beta);
  }

  lemma AtSpot(f: Vec, h: Vec, x: Fe)
    requires SameValues(f, h)
    ensures Eval(f, x) == Eval(h, x)
  {
    hide Eval;
  }

  lemma VanishingValue(w: Vec, t: Spots, x: Fe)
    ensures Eval(TimesRoot(TimesRoot(TimesRoot(w, t.alpha), t.zeta), t.zetaInv), x) == Mul(Z(t, x), Eval(w, x))
  {
    hide Mul, Sub, Eval, TimesRoot;
    RootValue(TimesRoot(TimesRoot(w, t.alpha), t.zeta), t.zetaInv, x);
    RootValue(TimesRoot(w, t.alpha), t.zeta, x);
    RootValue(w, t.alpha, x);
    var (a, b, c, y) := (Sub(x, t.alpha), Sub(x, t.zeta), Sub(x, t.zetaInv), Eval(w, x));
    MulAssoc(y, a, b);
    MulAssoc(y, Mul(a, b), c);
    MulComm(y, Mul(Mul(a, b), c));
  }

  // ---------------------------------------------------------------- the whole tree

  /** What a prover answers to one value of z, and the values of tau it is checked at. */
  datatype ZReply = ZReply(z: Fe, v: Vec, taus: seq<Fe>)

  /** What it answers to one value of beta. */
  datatype BetaReply = BetaReply(beta: Fe, w: Vec, zs: seq<ZReply>)

  function ZsOf(b: BetaReply): (zs: seq<Fe>)
    ensures |zs| == |b.zs|
  {
    seq(|b.zs|, i requires 0 <= i < |b.zs| => b.zs[i].z)
  }

  ghost predicate ReplyOk(p: Four, t: Spots, e: Evals, beta: Fe, w: Vec, r: ZReply) {
    && |p.g| <= |r.taus| && |p.h| <= |r.taus| && |p.s| <= |r.taus| && |p.d| <= |r.taus| && |w| <= |r.taus|
       && |r.v| < |r.taus|
    && Distinct(r.taus) && forall k :: 0 <= k < |r.taus| ==> Passes(p, t, e, beta, r.z, w, r.v, r.taus[k])
  }

  ghost predicate BetaOk(p: Four, t: Spots, e: Evals, b: BetaReply) {
    && Distinct(ZsOf(b)) && |b.zs| >= 5 && |b.w| + 3 <= |b.zs|
    && |p.g| + 2 <= |b.zs| && |p.h| + 2 <= |b.zs| && |p.s| + 2 <= |b.zs| && |p.d| + 2 <= |b.zs|
    && forall i :: 0 <= i < |b.zs| ==> ReplyOk(p, t, e, b.beta, b.w, b.zs[i])
  }

  lemma BetaUndetected(p: Four, t: Spots, e: Evals, b: BetaReply)
    requires Apart(t) && BetaOk(p, t, e, b)
    ensures Undetected(p, t, e, b.beta)
  {
    hide Eval, MValue, Stars, Z, Mul, Passes, Undetected, Apart;
    forall i | 0 <= i < |b.zs|
      ensures MValue(p, Stars(t, e), t, b.beta, ZsOf(b)[i]) == Mul(Z(t, ZsOf(b)[i]), Eval(b.w, ZsOf(b)[i]))
    {
      assert ReplyOk(p, t, e, b.beta, b.w, b.zs[i]);
      ManyTaus(p, t, e, b.beta, b.zs[i].z, b.w, b.zs[i].v, b.zs[i].taus);
    }
    ManyZs(p, t, e, b.beta, b.w, ZsOf(b));
  }

  /** For any vectors a prover commits to: if it passes for four values of beta, after each
      for enough values of z and for each of those at enough values of tau, then all
      eight claimed evaluations are true. */
  lemma AllClaimsTrue(p: Four, t: Spots, e: Evals, bs: seq<BetaReply>)
    requires Apart(t) && |bs| == 4
    requires Distinct([bs[0].beta, bs[1].beta, bs[2].beta, bs[3].beta])
    requires forall i :: 0 <= i < 4 ==> BetaOk(p, t, e, bs[i])
    ensures TrueEvals(p, t, e)
  {
    hide BetaOk, Undetected, TrueEvals, Apart;
    BetaUndetected(p, t, e, bs[0]);
    BetaUndetected(p, t, e, bs[1]);
    BetaUndetected(p, t, e, bs[2]);
    BetaUndetected(p, t, e, bs[3]);
    FourBetas(p, t, e, [bs[0].beta, bs[1].beta, bs[2].beta, bs[3].beta]);
  }
}
