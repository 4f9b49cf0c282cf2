/** What NeutronNova's zero-fold guarantees for arbitrary messages: the verdict for every
    message, the converse from enough challenges, and the tree of honest runs that decides
    both pairs.  The transcripts are written out. */
module NeutronSoundness {
  import opened PrimeField
  import opened FieldLaws
  import opened PrimeGroup
  import opened Vectors
  import opened Pedersen
  import opened Polynomials
  import opened Interpolation
  import opened Gaussian
  import opened R1cs
  import opened Transcripts
  import opened Neutron
  import Sparse

  // ---------------------------------------------------- the verdict on any message

  /** The round's value at x for two pairs and a weight vector. */
  function TrueRound(st: Structure, U1: FoldedInstance, W1: FoldedWitness, U2: Instance, W2: Witness, E2: Vec, rho: Fe,
                     x: Fe): Fe
    requires StructureOk(st) && |W1.W| == |W2.W| == st.S.numVars && |U1.X| == |U2.X| == st.S.numIo
    requires |W1.E| == |E2| == st.left + st.right
  {
    RoundAt(rho, W1.E[..st.left], E2[..st.left], W1.E[st.left..], E2[st.left..],
            Multiply(st.S, Z(W1.W, U1.u, U1.X)), Multiply(st.S, Z(W2.W, 1, U2.X)), x)
  }

  /** For every message: it is rejected exactly when poly(0) + poly(1) is not the claim, the
      `unwrap` panics exactly on a zero of the equality polynomial, and otherwise the new
      claim times that polynomial is poly(r_b). */
  lemma VerdictExactly(f: Oracle<RoMsg>, pp: Fe, U1: FoldedInstance, U2: Instance, commE: Pt, poly: Vec)
    requires |poly| >= 1 && |U1.X| == |U2.X|
    ensures var v := VerifySpec(f, pp, U1, U2, Nifs(commE, poly));
      var rho := f([Said(Digest(pp)), Said(AbsorbU2(U2)), Squeezed, Said(AbsorbE(commE))]);
      var rb := f([Said(Digest(pp)), Said(AbsorbU2(U2)), Squeezed, Said(AbsorbE(commE)), Squeezed, Said(AbsorbPoly(poly))]);
      var fits := Add(Eval(poly, 0), Eval(poly, 1)) == Mul(Sub(1, rho), U1.T);
      && (v == InvalidSumcheckProof <==> !fits)
      && (v == Panic <==> fits && EqAt(rho, rb) == 0)
      && (v.Ok? <==> fits && EqAt(rho, rb) != 0)
      && (v.Ok? ==> Mul(v.value.T, EqAt(rho, rb)) == Eval(poly, rb)
                    && v.value == FoldInstance(U1, U2, commE, rb, v.value.T))
  {
    hide Mul, Add, Sub, Inv, Eval, Sum, EqAt, Plus, Smul, VAdd, VScale;
    LogsWritten(pp, U2, commE, poly);
    SumIsValueAtOne(poly);
    ValueAtZero(poly);
    var rho := f(LogRho(pp, U2, commE));
    var rb := f(LogRb(pp, U2, Nifs(commE, poly)));
    if EqAt(rho, rb) != 0 {
      DivideOut(Eval(poly, rb), EqAt(rho, rb), Mul(Eval(poly, rb), Inv(EqAt(rho, rb))));
    }
  }

  lemma LogsWritten(pp: Fe, U2: Instance, commE: Pt, poly: Vec)
    ensures LogTau(pp, U2) == [Said(Digest(pp)), Said(AbsorbU2(U2))]
    ensures LogRho(pp, U2, commE) == [Said(Digest(pp)), Said(AbsorbU2(U2)), Squeezed, Said(AbsorbE(commE))]
    ensures LogRb(pp, U2, Nifs(commE, poly))
         == [Said(Digest(pp)), Said(AbsorbU2(U2)), Squeezed, Said(AbsorbE(commE)), Squeezed, Said(AbsorbPoly(poly))]
  {
  }

  /** The fold is satisfied by two witnesses and a weight vector exactly when the new claim
      times the equality polynomial is the true round and the gaps cancel. */
  lemma AnyFoldExactly(st: Structure, key: Key, U1: FoldedInstance, W1: FoldedWitness, U2: Instance, W2: Witness,
                       commE: Pt, E2: Vec, rE2: Fe, rho: Fe, rb: Fe, T: Fe)
    requires StructureOk(st) && Neutron.Fits(st, key, U1, W1) && FitsStrict(st.S, key, U2, W2)
       && |E2| == st.left + st.right
    requires EqAt(rho, rb) != 0
    ensures Neutron.IsSat(st, key, Neutron.FoldInstance(U1, U2, commE, rb, T), Neutron.FoldWitness(W1, W2, E2, rE2, rb))
      <==> Mul(T, EqAt(rho, rb)) == TrueRound(st, U1, W1, U2, W2, E2, rho, rb)
           && Plus(Smul(Sub(1, rb), GapW(key, U1, W1)), Smul(rb, Gap(key, U2.commW, W2.W, W2.rW))) == O
           && Plus(Smul(Sub(1, rb), GapE(key, U1, W1)), Smul(rb, Gap(key, commE, E2, rE2))) == O
  {
    hide Mul, Add, Sub, Eval, Lerp, Commit, WeightedSum, SumAt, EqAt, ShapeOk, VAdd, VScale, Smul, Plus, Gap, Neutron.IsSat,
      Multiply;
    FoldedSum(st, U1, W1, U2, W2, E2, rb);
    var (m1, m2) := (Multiply(st.S, Z(W1.W, U1.u, U1.X)), Multiply(st.S, Z(W2.W, 1, U2.X)));
    var s := SumAt(W1.E[..st.left], E2[..st.left], W1.E[st.left..], E2[st.left..], m1, m2, rb);
    CancelFactor(s, T, EqAt(rho, rb));
    GapLerp(key, U1.commW, W1.W, W1.rW, U2.commW, W2.W, W2.rW, rb);
    GapLerp(key, U1.commE, W1.E, W1.rE, commE, E2, rE2, rb);
    SatParts(st, key, Neutron.FoldInstance(U1, U2, commE, rb, T), Neutron.FoldWitness(W1, W2, E2, rE2, rb));
  }

  lemma CancelFactor(s: Fe, t: Fe, q: Fe)
    requires q != 0
    ensures s == t <==> Mul(t, q) == Mul(s, q)
  {
    hide *;
    if Mul(t, q) == Mul(s, q) { MulCancel(t, s, q); }
  }

  // ------------------------------------------------ enough answers at the last challenge

  /** (1 - r) a + r b as a line from a. */
  lemma PointLine(a: Pt, b: Pt, r: Fe)
    ensures Plus(Smul(Sub(1, r), a), Smul(r, b)) == Plus(a, Smul(r, Minus(b, a)))
  {
    hide Plus, Smul, Sub, Opp;
    SmulFSub(1, r, a);
    SmulSmall(a);
    SmulMinus(r, b, a);
    PlusAssoc(a, Opp(Smul(r, a)), Smul(r, b));
    PlusComm(Opp(Smul(r, a)), Smul(r, b));
  }

  lemma SharesAreO(a: Pt, b: Pt, x: Fe, y: Fe)
    requires x != y
    requires Plus(Smul(Sub(1, x), a), Smul(x, b)) == O && Plus(Smul(Sub(1, y), a), Smul(y, b)) == O
    ensures a == O && b == O
  {
    hide *;
    PointLine(a, b, x);
    PointLine(a, b, y);
    LineIsO(a, Minus(b, a), x, y);
    MinusIsO(b, a);
  }

  lemma NoShares(x: Fe)
    ensures Plus(Smul(Sub(1, x), O), Smul(x, O)) == O
  {
    hide *;
    SmulO(Sub(1, x));
    SmulO(x);
    PlusO(O);
  }

  /** The verifier accepts the message, and the folded witness satisfies its instance. */
  ghost predicate RunSat(st: Structure, key: Key, f: Oracle<RoMsg>, pp: Fe, U1: FoldedInstance, W1: FoldedWitness,
                         U2: Instance, W2: Witness, commE: Pt, E2: Vec, rE2: Fe, poly: Vec)
    requires StructureOk(st) && Neutron.Fits(st, key, U1, W1) && FitsStrict(st.S, key, U2, W2)
    requires |E2| == st.left + st.right && |poly| >= 1
  {
    var v := VerifySpec(f, pp, U1, U2, Nifs(commE, poly));
    var rb := f([Said(Digest(pp)), Said(AbsorbU2(U2)), Squeezed, Said(AbsorbE(commE)), Squeezed, Said(AbsorbPoly(poly))]);
    v.Ok? && Neutron.IsSat(st, key, v.value, Neutron.FoldWitness(W1, W2, E2, rE2, rb))
  }

  lemma RunSatExactly(st: Structure, key: Key, f: Oracle<RoMsg>, pp: Fe, U1: FoldedInstance, W1: FoldedWitness,
                      U2: Instance, W2: Witness, commE: Pt, E2: Vec, rE2: Fe, poly: Vec, rho: Fe, rb: Fe)
    requires StructureOk(st) && Neutron.Fits(st, key, U1, W1) && FitsStrict(st.S, key, U2, W2)
    requires |E2| == st.left + st.right && |poly| >= 1
    requires rho == f([Said(Digest(pp)), Said(AbsorbU2(U2)), Squeezed, Said(AbsorbE(commE))])
    requires rb == f([Said(Digest(pp)), Said(AbsorbU2(U2)), Squeezed, Said(AbsorbE(commE)), Squeezed, Said(AbsorbPoly(poly))])
    requires EqAt(rho, rb) != 0
    ensures RunSat(st, key, f, pp, U1, W1, U2, W2, commE, E2, rE2, poly)
      <==> Add(Eval(poly, 0), Eval(poly, 1)) == Mul(Sub(1, rho), U1.T)
           && Eval(poly, rb) == TrueRound(st, U1, W1, U2, W2, E2, rho, rb)
           && Plus(Smul(Sub(1, rb), GapW(key, U1, W1)), Smul(rb, Gap(key, U2.commW, W2.W, W2.rW))) == O
           && Plus(Smul(Sub(1, rb), GapE(key, U1, W1)), Smul(rb, Gap(key, commE, E2, rE2))) == O
  {
    hide VerifySpec, RunSat, StructureOk, Mul, Add, Sub, Eval, EqAt, TrueRound, Plus, Smul, Gap, GapW, GapE, Neutron.IsSat,
      Neutron.FoldInstance, Neutron.FoldWitness;
    VerdictExactly(f, pp, U1, U2, commE, poly);
    RunSatIs(st, key, f, pp, U1, W1, U2, W2, commE, E2, rE2, poly);
    var v := VerifySpec(f, pp, U1, U2, Nifs(commE, poly));
    if v.Ok? {
      var T := v.value.T;
      AnyFoldExactly(st, key, U1, W1, U2, W2, commE, E2, rE2, rho, rb, T);
    }
  }

  lemma RunSatIs(st: Structure, key: Key, f: Oracle<RoMsg>, pp: Fe, U1: FoldedInstance, W1: FoldedWitness,
                 U2: Instance, W2: Witness, commE: Pt, E2: Vec, rE2: Fe, poly: Vec)
    requires StructureOk(st) && Neutron.Fits(st, key, U1, W1) && FitsStrict(st.S, key, U2, W2)
    requires |E2| == st.left + st.right && |poly| >= 1
    ensures var v := VerifySpec(f, pp, U1, U2, Nifs(commE, poly));
      var rb := f([Said(Digest(pp)), Said(AbsorbU2(U2)), Squeezed, Said(AbsorbE(commE)), Squeezed, Said(AbsorbPoly(poly))]);
      RunSat(st, key, f, pp, U1, W1, U2, W2, commE, E2, rE2, poly)
      <==> v.Ok? && Neutron.IsSat(st, key, v.value, Neutron.FoldWitness(W1, W2, E2, rE2, rb))
  {
    hide VerifySpec, Neutron.IsSat, Neutron.FoldWitness, StructureOk;
  }

  /** A message and the continuations after it, with the challenge before it. */
  datatype Round = Round(rho: Fe, poly: Vec, fs: seq<Oracle<RoMsg>>)

  function Answers(fs: seq<Oracle<RoMsg>>, log: Log<RoMsg>): (rbs: seq<Fe>)
    ensures |rbs| == |fs|
  {
    seq(|fs|, k requires 0 <= k < |fs| => fs[k](log))
  }

  /** All continuations answer rho, then differ, away from the zero of the equality
      polynomial; there are at least six, and as many as the message has coefficients. */
  ghost predicate Enough(d: Round, pp: Fe, U2: Instance, commE: Pt) {
    var logRho := [Said(Digest(pp)), Said(AbsorbU2(U2)), Squeezed, Said(AbsorbE(commE))];
    var logRb := [Said(Digest(pp)), Said(AbsorbU2(U2)), Squeezed, Said(AbsorbE(commE)), Squeezed, Said(AbsorbPoly(d.poly))];
    && 1 <= |d.poly| <= |d.fs| && 6 <= |d.fs|
    && Distinct(Answers(d.fs, logRb))
    && forall k :: 0 <= k < |d.fs| ==> d.fs[k](logRho) == d.rho && EqAt(d.rho, d.fs[k](logRb)) != 0
  }

  ghost predicate RoundSat(st: Structure, key: Key, pp: Fe, U1: FoldedInstance, W1: FoldedWitness,
                           U2: Instance, W2: Witness, commE: Pt, E2: Vec, rE2: Fe, d: Round)
    requires StructureOk(st) && Neutron.Fits(st, key, U1, W1) && FitsStrict(st.S, key, U2, W2)
    requires |E2| == st.left + st.right && |d.poly| >= 1
  {
    forall k :: 0 <= k < |d.fs| ==> RunSat(st, key, d.fs[k], pp, U1, W1, U2, W2, commE, E2, rE2, d.poly)
  }

  /** The message is the round polynomial. */
  ghost predicate TruePoly(st: Structure, U1: FoldedInstance, W1: FoldedWitness, U2: Instance, W2: Witness, E2: Vec,
                           rho: Fe, poly: Vec)
    requires StructureOk(st) && |W1.W| == |W2.W| == st.S.numVars && |U1.X| == |U2.X| == st.S.numIo
    requires |W1.E| == |E2| == st.left + st.right
  {
    forall x: Fe :: Eval(poly, x) == TrueRound(st, U1, W1, U2, W2, E2, rho, x)
  }

  /** The commitments open: both of the running pair, the strict pair's, and the message's. */
  ghost predicate AllOpen(key: Key, U1: FoldedInstance, W1: FoldedWitness, U2: Instance, W2: Witness, commE: Pt,
                          E2: Vec, rE2: Fe)
    requires |W1.W| <= |key.ck| && |W1.E| <= |key.ck| && |W2.W| <= |key.ck| && |E2| <= |key.ck|
  {
    && GapW(key, U1, W1) == O && GapE(key, U1, W1) == O
    && Gap(key, U2.commW, W2.W, W2.rW) == O && Gap(key, commE, E2, rE2) == O
  }

  lemma TruePolySum(st: Structure, U1: FoldedInstance, W1: FoldedWitness, U2: Instance, W2: Witness, E2: Vec, rho: Fe,
                    poly: Vec)
    requires StructureOk(st) && |W1.W| == |W2.W| == st.S.numVars && |U1.X| == |U2.X| == st.S.numIo
    requires |W1.E| == |E2| == st.left + st.right
    requires TruePoly(st, U1, W1, U2, W2, E2, rho, poly)
    ensures Add(Eval(poly, 0), Eval(poly, 1)) == Mul(Sub(1, rho), U1.T) <==> ClaimHolds(st, U1, W1, U2, W2, E2, rho)
  {
    hide Mul, Add, Sub, Eval, RoundAt, Multiply, Bilinear, Defects, ShapeOk;
    RoundEnds(rho, W1.E[..st.left], E2[..st.left], W1.E[st.left..], E2[st.left..],
              Multiply(st.S, Z(W1.W, U1.u, U1.X)), Multiply(st.S, Z(W2.W, 1, U2.X)));
    assert Eval(poly, 0) == TrueRound(st, U1, W1, U2, W2, E2, rho, 0);
    assert Eval(poly, 1) == TrueRound(st, U1, W1, U2, W2, E2, rho, 1);
  }

  /** Enough true values make the message the round polynomial. */
  lemma TruePolyFromValues(st: Structure, U1: FoldedInstance, W1: FoldedWitness, U2: Instance, W2: Witness, E2: Vec,
                           rho: Fe, poly: Vec, rbs: seq<Fe>)
    requires StructureOk(st) && |W1.W| == |W2.W| == st.S.numVars && |U1.X| == |U2.X| == st.S.numIo
    requires |W1.E| == |E2| == st.left + st.right
    requires |poly| <= |rbs| && 6 <= |rbs| && Distinct(rbs)
    requires forall k :: 0 <= k < |rbs| ==> Eval(poly, rbs[k]) == TrueRound(st, U1, W1, U2, W2, E2, rho, rbs[k])
    ensures TruePoly(st, U1, W1, U2, W2, E2, rho, poly)
  {
    hide Eval, RoundAt, RoundPoly, Multiply, ShapeOk;
    var (e1, e2, f1, f2) := (W1.E[..st.left], E2[..st.left], W1.E[st.left..], E2[st.left..]);
    var (m1, m2) := (Multiply(st.S, Z(W1.W, U1.u, U1.X)), Multiply(st.S, Z(W2.W, 1, U2.X)));
    var g := RoundPoly(rho, e1, e2, f1, f2, m1, m2);
    forall x: Fe ensures Eval(g, x) == TrueRound(st, U1, W1, U2, W2, E2, rho, x) {
      RoundPolyAt(rho, e1, e2, f1, f2, m1, m2, x);
    }
    AgreeLonger(poly, g, rbs);
  }

  /** For every message, any two witnesses and any weight vector: the folds under enough
      answers at the last challenge are all accepted and satisfied if and only if the
      message is the round polynomial, the claim about the two sums is true at rho, and
      all four commitments open. */
  lemma EnoughChallenges(st: Structure, key: Key, pp: Fe, U1: FoldedInstance, W1: FoldedWitness,
                         U2: Instance, W2: Witness, commE: Pt, E2: Vec, rE2: Fe, d: Round)
    requires StructureOk(st) && Neutron.Fits(st, key, U1, W1) && FitsStrict(st.S, key, U2, W2)
    requires |E2| == st.left + st.right && Enough(d, pp, U2, commE)
    ensures RoundSat(st, key, pp, U1, W1, U2, W2, commE, E2, rE2, d)
      <==> TruePoly(st, U1, W1, U2, W2, E2, d.rho, d.poly) && ClaimHolds(st, U1, W1, U2, W2, E2, d.rho)
           && AllOpen(key, U1, W1, U2, W2, commE, E2, rE2)
  {
    hide RunSat, TruePoly, ClaimHolds, TrueRound, StructureOk, GapW, GapE, Gap, Mul, Add, Sub, Plus, Smul, Eval, EqAt;
    var logRb := [Said(Digest(pp)), Said(AbsorbU2(U2)), Squeezed, Said(AbsorbE(commE)), Squeezed, Said(AbsorbPoly(d.poly))];
    var rbs := Answers(d.fs, logRb);
    forall k | 0 <= k < |d.fs|
      ensures RunSat(st, key, d.fs[k], pp, U1, W1, U2, W2, commE, E2, rE2, d.poly)
        <==> Add(Eval(d.poly, 0), Eval(d.poly, 1)) == Mul(Sub(1, d.rho), U1.T)
             && Eval(d.poly, rbs[k]) == TrueRound(st, U1, W1, U2, W2, E2, d.rho, rbs[k])
             && Plus(Smul(Sub(1, rbs[k]), GapW(key, U1, W1)), Smul(rbs[k], Gap(key, U2.commW, W2.W, W2.rW))) == O
             && Plus(Smul(Sub(1, rbs[k]), GapE(key, U1, W1)), Smul(rbs[k], Gap(key, commE, E2, rE2))) == O
    {
      RunSatExactly(st, key, d.fs[k], pp, U1, W1, U2, W2, commE, E2, rE2, d.poly, d.rho, rbs[k]);
    }
    if RoundSat(st, key, pp, U1, W1, U2, W2, commE, E2, rE2, d) {
      assert RunSat(st, key, d.fs[0], pp, U1, W1, U2, W2, commE, E2, rE2, d.poly);
      assert RunSat(st, key, d.fs[1], pp, U1, W1, U2, W2, commE, E2, rE2, d.poly);
      SharesAreO(GapW(key, U1, W1), Gap(key, U2.commW, W2.W, W2.rW), rbs[0], rbs[1]);
      SharesAreO(GapE(key, U1, W1), Gap(key, commE, E2, rE2), rbs[0], rbs[1]);
      TruePolyFromValues(st, U1, W1, U2, W2, E2, d.rho, d.poly, rbs);
      TruePolySum(st, U1, W1, U2, W2, E2, d.rho, d.poly);
    }
    if TruePoly(st, U1, W1, U2, W2, E2, d.rho, d.poly) && ClaimHolds(st, U1, W1, U2, W2, E2, d.rho)
       && AllOpen(key, U1, W1, U2, W2, commE, E2, rE2) {
      TruePolySum(st, U1, W1, U2, W2, E2, d.rho, d.poly);
      forall k | 0 <= k < |d.fs| ensures RunSat(st, key, d.fs[k], pp, U1, W1, U2, W2, commE, E2, rE2, d.poly) {
        TruePolyAt(st, U1, W1, U2, W2, E2, d.rho, d.poly, rbs[k]);
        NoShares(rbs[k]);
      }
    }
  }

  lemma TruePolyAt(st: Structure, U1: FoldedInstance, W1: FoldedWitness, U2: Instance, W2: Witness, E2: Vec, rho: Fe,
                   poly: Vec, x: Fe)
    requires StructureOk(st) && |W1.W| == |W2.W| == st.S.numVars && |U1.X| == |U2.X| == st.S.numIo
    requires |W1.E| == |E2| == st.left + st.right
    requires TruePoly(st, U1, W1, U2, W2, E2, rho, poly)
    ensures Eval(poly, x) == TrueRound(st, U1, W1, U2, W2, E2, rho, x)
  {
    hide Eval, TrueRound, StructureOk;
  }

  // ---------------------------------------------------- two answers at the challenge rho

  lemma ClaimLine(a: Fe, b: Fe, t: Fe, x: Fe)
    ensures Sub(Mul(Sub(1, x), t), Add(Mul(Sub(1, x), a), Mul(x, b)))
      == Sub(Sub(t, a), Mul(x, Add(Sub(t, a), b)))
  {
    hide *;
    Hom();
    ROf(a); ROf(b); ROf(t); ROf(x); ROf(1);
    ClaimLineI(a, b, t, x);
  }

  lemma ClaimLineI(a: int, b: int, t: int, x: int)
    ensures ISub(IMul(ISub(1, x), t), IAdd(IMul(ISub(1, x), a), IMul(x, b)))
      == ISub(ISub(t, a), IMul(x, IAdd(ISub(t, a), b)))
  {
  }

  /** The claim at rho, as a line in rho. */
  lemma ClaimIsLine(t: Fe, a: Fe, b: Fe, x: Fe)
    ensures Mul(Sub(1, x), t) == Add(Mul(Sub(1, x), a), Mul(x, b)) <==> Sub(t, a) == Mul(x, Add(Sub(t, a), b))
  {
    hide *;
    ClaimLine(a, b, t, x);
    SubIsZero(Mul(Sub(1, x), t), Add(Mul(Sub(1, x), a), Mul(x, b)));
    SubIsZero(Sub(t, a), Mul(x, Add(Sub(t, a), b)));
  }

  lemma TwoClaims(t: Fe, a: Fe, b: Fe, x: Fe, y: Fe)
    requires x != y
    ensures (&& Mul(Sub(1, x), t) == Add(Mul(Sub(1, x), a), Mul(x, b))
             && Mul(Sub(1, y), t) == Add(Mul(Sub(1, y), a), Mul(y, b)))
      <==> t == a && b == 0
  {
    hide Mul, Add, Sub;
    ClaimIsLine(t, a, b, x);
    ClaimIsLine(t, a, b, y);
    var e := Add(Sub(t, a), b);
    MulOne(x);
    MulOne(y);
    SubIsZero(t, a);
    AddZero(b);
    AddZero(0);
    if Sub(t, a) == Mul(x, e) && Sub(t, a) == Mul(y, e) && e != 0 {
      MulCancel(x, y, e);
    }
  }

  /** For every commitment to a weight vector: if for two answers at rho the prover finds
      messages that are accepted and satisfied under enough last challenges, then the
      running pair is satisfying, the strict pair has no weighted error, and its
      commitment and the weight vector's open; and then the messages are the true ones. */
  lemma TwoRounds(st: Structure, key: Key, pp: Fe, U1: FoldedInstance, W1: FoldedWitness,
                  U2: Instance, W2: Witness, commE: Pt, E2: Vec, rE2: Fe, c: Round, d: Round)
    requires StructureOk(st) && Neutron.Fits(st, key, U1, W1) && FitsStrict(st.S, key, U2, W2)
    requires |E2| == st.left + st.right && Enough(c, pp, U2, commE) && Enough(d, pp, U2, commE) && c.rho != d.rho
    ensures RoundSat(st, key, pp, U1, W1, U2, W2, commE, E2, rE2, c)
       && RoundSat(st, key, pp, U1, W1, U2, W2, commE, E2, rE2, d)
      <==> Neutron.IsSat(st, key, U1, W1) && WeightedSum(st, Z(W2.W, 1, U2.X), E2) == 0
           && U2.commW == Commit(key, W2.W, W2.rW) && commE == Commit(key, E2, rE2)
           && TruePoly(st, U1, W1, U2, W2, E2, c.rho, c.poly) && TruePoly(st, U1, W1, U2, W2, E2, d.rho, d.poly)
  {
    hide RoundSat, Enough, TruePoly, StructureOk, WeightedSum, GapW, GapE, Gap, Mul, Add, Sub, Neutron.IsSat, Commit;
    EnoughChallenges(st, key, pp, U1, W1, U2, W2, commE, E2, rE2, c);
    EnoughChallenges(st, key, pp, U1, W1, U2, W2, commE, E2, rE2, d);
    TwoClaims(U1.T, WeightedSum(st, Z(W1.W, U1.u, U1.X), W1.E), WeightedSum(st, Z(W2.W, 1, U2.X), E2), c.rho, d.rho);
    SatParts(st, key, U1, W1);
    GapIsO(key, U2.commW, W2.W, W2.rW);
    GapIsO(key, commE, E2, rE2);
  }

  /** When the strict pair is known to satisfy its rows, one answer at rho other than 1
      is enough for the running pair's claim. */
  lemma ClaimIsTrue(st: Structure, key: Key, pp: Fe, U1: FoldedInstance, W1: FoldedWitness,
                    U2: Instance, W2: Witness, commE: Pt, E2: Vec, rE2: Fe, d: Round)
    requires Neutron.Fits(st, key, U1, W1) && StructureOk(st) && R1cs.IsSat(st.S, key, U2, W2)
    requires |E2| == st.left + st.right && Enough(d, pp, U2, commE) && d.rho != 1
    requires RoundSat(st, key, pp, U1, W1, U2, W2, commE, E2, rE2, d)
    ensures Neutron.IsSat(st, key, U1, W1)
  {
    hide RoundSat, Enough, TruePoly, StructureOk, WeightedSum, GapW, GapE, Gap, Mul, Add, Sub, Neutron.IsSat, Sparse.MultiplyVec;
    EnoughChallenges(st, key, pp, U1, W1, U2, W2, commE, E2, rE2, d);
    StrictSum(st, key, U2, W2, E2);
    var s := WeightedSum(st, Z(W1.W, U1.u, U1.X), W1.E);
    MulOne(d.rho);
    AddZero(Mul(Sub(1, d.rho), s));
    SubIsZero(1, d.rho);
    MulComm(Sub(1, d.rho), U1.T);
    MulComm(Sub(1, d.rho), s);
    MulCancel(U1.T, s, Sub(1, d.rho));
    SatParts(st, key, U1, W1);
  }

  // --------------------------------------------------------- the tree of honest runs

  lemma {:induction false} BlocksOfPowers(t: Fe, left: nat, k: nat, f: Vec, d: Vec)
    requires |d| == left * |f| && forall i :: 0 <= i < |f| ==> f[i] == Pow(Pow(t, left), k + i)
    ensures Bilinear(PowersOf(t, left), f, d) == Mul(Pow(Pow(t, left), k), Eval(d, t))
    decreases |f|
  {
    hide Mul, Add, Dot, Pow;
    var w := Pow(t, left);
    if |f| == 0 {
      assert d == [];
      MulOne(Pow(w, k));
    } else {
      BlockSize(left, |f|);
      forall i | 0 <= i < |f| - 1 ensures f[1..][i] == Pow(w, k + 1 + i) {
        assert f[1..][i] == f[i + 1] && k + (i + 1) == k + 1 + i;
      }
      BlocksOfPowers(t, left, k + 1, f[1..], d[left..]);
      PowersDot(t, d[..left]);
      assert d == d[..left] + d[left..];
      EvalConcat(d[..left], d[left..], t);
      assert f[0] == Pow(w, k + 0);
      PowSnoc(w, k);
      MulAssoc(Pow(w, k), w, Eval(d[left..], t));
      MulAdd(Pow(w, k), Eval(d[..left], t), Mul(w, Eval(d[left..], t)));
    }
  }

  lemma PowersDot(t: Fe, c: Vec)
    ensures Dot(PowersOf(t, |c|), c) == Eval(c, t)
  {
    hide Mul, Pow, Dot, Eval;
    PowersRowEvaluates(t, c);
    assert PowersOf(t, |c|) == PowersRow(t, |c|);
  }

  /** With the powers of tau as weights, the sum is the defects' polynomial at tau. */
  lemma SumAtTau(st: Structure, z: Vec, t: Fe)
    requires StructureOk(st) && |z| == st.S.numVars + 1 + st.S.numIo
    ensures WeightedSum(st, z, Split(t, st.left, st.right)) == Eval(Defects(Multiply(st.S, z)), t)
  {
    hide Mul, Eval, Pow, Bilinear, Defects, Multiply, ShapeOk;
    var (E, d) := (Split(t, st.left, st.right), Defects(Multiply(st.S, z)));
    assert E[..st.left] == PowersOf(t, st.left) && E[st.left..] == PowersOf(Pow(t, st.left), st.right);
    BlocksOfPowers(t, st.left, 0, PowersOf(Pow(t, st.left), st.right), d);
    PowersStart(Pow(t, st.left));
    MulOne(Eval(d, t));
  }

  lemma PowersStart(w: Fe)
    ensures Pow(w, 0) == 1
  {
  }

  lemma StrictSatParts(st: Structure, key: Key, U2: Instance, W2: Witness)
    requires StructureOk(st) && FitsStrict(st.S, key, U2, W2)
    ensures R1cs.IsSat(st.S, key, U2, W2)
      <==> (forall i :: 0 <= i < st.S.numCons ==> Defects(Multiply(st.S, Z(W2.W, 1, U2.X)))[i] == 0)
           && U2.commW == Commit(key, W2.W, W2.rW)
  {
    hide Mul, Sub, Sparse.MultiplyVec, Sparse.Valid, Commit;
    var z := Z(W2.W, 1, U2.X);
    var (a, b, c) := (Sparse.MultiplyVec(st.S.A, z), Sparse.MultiplyVec(st.S.B, z), Sparse.MultiplyVec(st.S.C, z));
    var d := Defects(Multiply(st.S, z));
    forall i | 0 <= i < st.S.numCons ensures d[i] == 0 <==> Mul(a[i], b[i]) == c[i] {
      SubIsZero(Mul(a[i], b[i]), c[i]);
    }
    if forall i :: 0 <= i < st.S.numCons ==> d[i] == 0 {
      forall i | 0 <= i < st.S.numCons ensures Mul(a[i], b[i]) == c[i] { assert d[i] == 0; }
    }
  }

  /** Two continuations with the same challenges tau and rho. */
  datatype Twig = Twig(rho: Fe, f: Oracle<RoMsg>, g: Oracle<RoMsg>)

  /** Two twigs with the same challenge tau. */
  datatype Bough = Bough(tau: Fe, a: Twig, b: Twig)

  /** The two last challenges differ, and are neither zeros of the equality polynomial nor
      points the message was built from. */
  predicate TwigOk(st: Structure, key: Key, pp: Fe, p: Pair, s: Step, tau: Fe, t: Twig)
    requires StructureOk(st) && Neutron.Fits(st, key, p.U, p.W) && StepFits(st, key, s)
  {
    var E2 := Split(tau, st.left, st.right);
    var commE := Commit(key, E2, s.rE);
    var poly := StepPoly(st, p.U, p.W, s.U, s.W, E2, t.rho);
    var logTau := [Said(Digest(pp)), Said(AbsorbU2(s.U))];
    var logRho := [Said(Digest(pp)), Said(AbsorbU2(s.U)), Squeezed, Said(AbsorbE(commE))];
    var logRb := [Said(Digest(pp)), Said(AbsorbU2(s.U)), Squeezed, Said(AbsorbE(commE)), Squeezed, Said(AbsorbPoly(poly))];
    && t.f(logTau) == t.g(logTau) == tau && t.f(logRho) == t.g(logRho) == t.rho
    && t.f(logRb) != t.g(logRb)
    && t.f(logRb) !in [0, 2, 3, 4, 5] && t.g(logRb) !in [0, 2, 3, 4, 5]
    && EqAt(t.rho, t.f(logRb)) != 0 && EqAt(t.rho, t.g(logRb)) != 0
  }

  ghost predicate ProvesSat(st: Structure, key: Key, f: Oracle<RoMsg>, pp: Fe, p: Pair, s: Step)
    requires StructureOk(st) && Neutron.Fits(st, key, p.U, p.W) && StepFits(st, key, s)
  {
    var o := ProveSpec(st, key, f, pp, p, s);
    o.Ok? && Neutron.IsSat(st, key, o.value.1.U, o.value.1.W)
  }

  lemma ProvesSatExactly(st: Structure, key: Key, f: Oracle<RoMsg>, pp: Fe, p: Pair, s: Step, tau: Fe, rho: Fe, rb: Fe)
    requires StructureOk(st) && Neutron.Fits(st, key, p.U, p.W) && StepFits(st, key, s)
    requires tau == f([Said(Digest(pp)), Said(AbsorbU2(s.U))])
    requires var commE := Commit(key, Split(tau, st.left, st.right), s.rE);
      rho == f([Said(Digest(pp)), Said(AbsorbU2(s.U)), Squeezed, Said(AbsorbE(commE))])
    requires var E2 := Split(tau, st.left, st.right);
      rb == f([Said(Digest(pp)), Said(AbsorbU2(s.U)), Squeezed, Said(AbsorbE(Commit(key, E2, s.rE))), Squeezed,
               Said(AbsorbPoly(StepPoly(st, p.U, p.W, s.U, s.W, E2, rho)))])
    requires EqAt(rho, rb) != 0 && rb !in [0, 2, 3, 4, 5]
    ensures ProvesSat(st, key, f, pp, p, s)
      <==> ClaimHolds(st, p.U, p.W, s.U, s.W, Split(tau, st.left, st.right), rho)
           && Plus(Smul(Sub(1, rb), GapW(key, p.U, p.W)), Smul(rb, Gap(key, s.U.commW, s.W.W, s.W.rW))) == O
           && Smul(Sub(1, rb), GapE(key, p.U, p.W)) == O
  {
    hide StructureOk, Split, StepPoly, Commit, EqAt, Eval, Inv, Mul, Sub, Plus, Smul, Gap, GapW, GapE, ClaimHolds, Neutron.IsSat,
      Neutron.FoldInstance, Neutron.FoldWitness;
    var E2 := Split(tau, st.left, st.right);
    var commE := Commit(key, E2, s.rE);
    var poly := StepPoly(st, p.U, p.W, s.U, s.W, E2, rho);
    LogsWritten(pp, s.U, commE, poly);
    HonestFoldExactly(st, key, p.U, p.W, s.U, s.W, E2, s.rE, rho, rb, Mul(Eval(poly, rb), Inv(EqAt(rho, rb))));
  }

  ghost predicate TwigSat(st: Structure, key: Key, pp: Fe, p: Pair, s: Step, t: Twig)
    requires StructureOk(st) && Neutron.Fits(st, key, p.U, p.W) && StepFits(st, key, s)
  {
    ProvesSat(st, key, t.f, pp, p, s) && ProvesSat(st, key, t.g, pp, p, s)
  }

  lemma TwigExactly(st: Structure, key: Key, pp: Fe, p: Pair, s: Step, tau: Fe, t: Twig)
    requires StructureOk(st) && Neutron.Fits(st, key, p.U, p.W) && StepFits(st, key, s)
    requires TwigOk(st, key, pp, p, s, tau, t)
    ensures TwigSat(st, key, pp, p, s, t)
      <==> ClaimHolds(st, p.U, p.W, s.U, s.W, Split(tau, st.left, st.right), t.rho)
           && GapW(key, p.U, p.W) == O && GapE(key, p.U, p.W) == O && Gap(key, s.U.commW, s.W.W, s.W.rW) == O
  {
    hide StructureOk, Split, StepPoly, Commit, EqAt, Sub, Plus, Smul, Gap, GapW, GapE, ClaimHolds, ProvesSat;
    var E2 := Split(tau, st.left, st.right);
    var logRb := [Said(Digest(pp)), Said(AbsorbU2(s.U)), Squeezed, Said(AbsorbE(Commit(key, E2, s.rE))), Squeezed,
                  Said(AbsorbPoly(StepPoly(st, p.U, p.W, s.U, s.W, E2, t.rho)))];
    var (x, y) := (t.f(logRb), t.g(logRb));
    ProvesSatExactly(st, key, t.f, pp, p, s, tau, t.rho, x);
    ProvesSatExactly(st, key, t.g, pp, p, s, tau, t.rho, y);
    TwoShares(GapW(key, p.U, p.W), Gap(key, s.U.commW, s.W.W, s.W.rW), x, y);
    TwoScaled(GapE(key, p.U, p.W), x, y);
  }

  lemma TwoShares(a: Pt, b: Pt, x: Fe, y: Fe)
    requires x != y
    ensures Plus(Smul(Sub(1, x), a), Smul(x, b)) == O && Plus(Smul(Sub(1, y), a), Smul(y, b)) == O <==> a == O && b == O
  {
    hide Plus, Smul, Sub;
    NoShares(x);
    NoShares(y);
    if Plus(Smul(Sub(1, x), a), Smul(x, b)) == O && Plus(Smul(Sub(1, y), a), Smul(y, b)) == O {
      SharesAreO(a, b, x, y);
    }
  }

  lemma TwoScaled(a: Pt, x: Fe, y: Fe)
    requires x != y
    ensures Smul(Sub(1, x), a) == O && Smul(Sub(1, y), a) == O <==> a == O
  {
    hide Smul, Sub;
    SmulIsO(Sub(1, x), a);
    SmulIsO(Sub(1, y), a);
    SubIsZero(1, x);
    SubIsZero(1, y);
  }

  ghost predicate BoughOk(st: Structure, key: Key, pp: Fe, p: Pair, s: Step, b: Bough)
    requires StructureOk(st) && Neutron.Fits(st, key, p.U, p.W) && StepFits(st, key, s)
  {
    TwigOk(st, key, pp, p, s, b.tau, b.a) && TwigOk(st, key, pp, p, s, b.tau, b.b) && b.a.rho != b.b.rho
  }

  ghost predicate BoughSat(st: Structure, key: Key, pp: Fe, p: Pair, s: Step, b: Bough)
    requires StructureOk(st) && Neutron.Fits(st, key, p.U, p.W) && StepFits(st, key, s)
  {
    TwigSat(st, key, pp, p, s, b.a) && TwigSat(st, key, pp, p, s, b.b)
  }

  lemma BoughExactly(st: Structure, key: Key, pp: Fe, p: Pair, s: Step, b: Bough)
    requires StructureOk(st) && Neutron.Fits(st, key, p.U, p.W) && StepFits(st, key, s)
    requires BoughOk(st, key, pp, p, s, b)
    ensures BoughSat(st, key, pp, p, s, b)
      <==> Neutron.IsSat(st, key, p.U, p.W) && s.U.commW == Commit(key, s.W.W, s.W.rW)
           && Eval(Defects(Multiply(st.S, Z(s.W.W, 1, s.U.X))), b.tau) == 0
  {
    hide StructureOk, Split, TwigOk, TwigSat, WeightedSum, GapW, GapE, Gap, Mul, Add, Sub, Neutron.IsSat, Commit, Eval, Defects,
      Multiply;
    var E2 := Split(b.tau, st.left, st.right);
    TwigExactly(st, key, pp, p, s, b.tau, b.a);
    TwigExactly(st, key, pp, p, s, b.tau, b.b);
    TwoClaims(p.U.T, WeightedSum(st, Z(p.W.W, p.U.u, p.U.X), p.W.E), WeightedSum(st, Z(s.W.W, 1, s.U.X), E2), b.a.rho,
              b.b.rho);
    SumAtTau(st, Z(s.W.W, 1, s.U.X), b.tau);
    SatParts(st, key, p.U, p.W);
    GapIsO(key, s.U.commW, s.W.W, s.W.rW);
  }

  function Taus(bs: seq<Bough>): (ts: seq<Fe>)
    ensures |ts| == |bs|
  {
    seq(|bs|, k requires 0 <= k < |bs| => bs[k].tau)
  }

  /** `prove` over a tree of oracles, with as many answers at tau as the shape has rows, two
      at rho after each and two last challenges after each of those: all results are
      satisfying if and only if the running pair and the strict pair are. */
  lemma HonestTree(st: Structure, key: Key, pp: Fe, p: Pair, s: Step, bs: seq<Bough>)
    requires StructureOk(st) && Neutron.Fits(st, key, p.U, p.W) && StepFits(st, key, s)
    requires |bs| == st.S.numCons && Distinct(Taus(bs))
    requires forall k :: 0 <= k < |bs| ==> BoughOk(st, key, pp, p, s, bs[k])
    ensures (forall k :: 0 <= k < |bs| ==> BoughSat(st, key, pp, p, s, bs[k]))
      <==> Neutron.IsSat(st, key, p.U, p.W) && R1cs.IsSat(st.S, key, s.U, s.W)
  {
    hide BoughOk, BoughSat, ShapeOk, Neutron.IsSat, R1cs.IsSat, Commit, Eval, Defects, Multiply;
    var d := Defects(Multiply(st.S, Z(s.W.W, 1, s.U.X)));
    StrictSatParts(st, key, s.U, s.W);
    AtLeastTwoRows(st);
    forall k | 0 <= k < |bs|
      ensures BoughSat(st, key, pp, p, s, bs[k])
        <==> Neutron.IsSat(st, key, p.U, p.W) && s.U.commW == Commit(key, s.W.W, s.W.rW) && Eval(d, Taus(bs)[k]) == 0
    {
      BoughExactly(st, key, pp, p, s, bs[k]);
    }
    if forall k :: 0 <= k < |bs| ==> BoughSat(st, key, pp, p, s, bs[k]) {
      assert BoughSat(st, key, pp, p, s, bs[0]);
      ZeroCoefficients(d, Taus(bs));
    }
    if R1cs.IsSat(st.S, key, s.U, s.W) {
      forall k | 0 <= k < |bs| ensures Eval(d, Taus(bs)[k]) == 0 { AllZero(d, Taus(bs)[k]); }
    }
  }

  lemma AtLeastTwoRows(st: Structure)
    requires StructureOk(st)
    ensures st.S.numCons >= 2
  {
    hide ShapeOk;
    BlockSize(st.right, st.left);
    assert st.left * st.right == st.right * st.left;
  }

  lemma AllZero(d: Vec, x: Fe)
    requires forall i :: 0 <= i < |d| ==> d[i] == 0
    ensures Eval(d, x) == 0
  {
    hide Eval;
    assert d == Zeros(|d|);
    EvalZeros(|d|, x);
  }
}
