/** What the folding scheme guarantees for arbitrary, not necessarily honest, messages:
    the steps of prover and verifier under oracles that differ at the challenge.  The
    transcripts are written out, so that a challenge taken anywhere else does not do. */
module NovaSoundness {
  import opened PrimeField
  import opened FieldLaws
  import opened PrimeGroup
  import opened Vectors
  import opened Pedersen
  import opened Sparse
  import opened R1cs
  import opened Transcripts
  import opened NovaFold

  ghost predicate PairIsSat(S: Shape, key: Key, p: Pair) {
    IsSatRelaxed(S, key, p.U, p.W)
  }

  predicate ThreeAnswers(f: Oracle<RoMsg>, g: Oracle<RoMsg>, h: Oracle<RoMsg>, log: Log<RoMsg>) {
    f(log) != g(log) && f(log) != h(log) && g(log) != h(log)
  }

  /** `prove` under three oracles with different answers: the results are all satisfying
      if and only if the running pair and the strict pair are. */
  lemma ThreeProverSteps(S: Shape, key: Key, pp: Fe, p: Pair, U: Instance, W: Witness, rT: Fe,
                         f: Oracle<RoMsg>, g: Oracle<RoMsg>, h: Oracle<RoMsg>)
    requires ShapeOk(S) && Fits(S, key, p.U, p.W) && FitsStrict(S, key, U, W)
    requires ThreeAnswers(f, g, h, [Said(Digest(pp)), Said(AbsorbStrict(U)),
                                    Said(AbsorbComm(Commit(key, CrossTermStrict(S, p.U, p.W, U, W), rT)))])
    ensures PairIsSat(S, key, ProveStep(S, key, f, pp, p, Strict(U, W, rT)))
            && PairIsSat(S, key, ProveStep(S, key, g, pp, p, Strict(U, W, rT)))
            && PairIsSat(S, key, ProveStep(S, key, h, pp, p, Strict(U, W, rT)))
      <==> IsSatRelaxed(S, key, p.U, p.W) && IsSat(S, key, U, W)
  {
    hide ShapeOk, IsSatRelaxed, IsSat, CrossTermStrict, Commit, FoldInstance, FoldWitness;
    var log := [Said(Digest(pp)), Said(AbsorbStrict(U)),
                Said(AbsorbComm(Commit(key, CrossTermStrict(S, p.U, p.W, U, W), rT)))];
    ThreeStrictFolds(S, key, p.U, p.W, U, W, rT, f(log), g(log), h(log));
  }

  /** The same for `prove_relaxed`. */
  lemma ThreeRelaxedProverSteps(S: Shape, key: Key, vk: Fe, p: Pair, V: RelaxedInstance, X: RelaxedWitness, rT: Fe,
                                f: Oracle<RoMsg>, g: Oracle<RoMsg>, h: Oracle<RoMsg>)
    requires ShapeOk(S) && Fits(S, key, p.U, p.W) && Fits(S, key, V, X)
    requires ThreeAnswers(f, g, h, [Said(Digest(vk)), Said(AbsorbRelaxed(p.U)), Said(AbsorbRelaxed(V)),
                                    Said(AbsorbComm(Commit(key, CrossTerm(S, p.U, p.W, V, X), rT)))])
    ensures PairIsSat(S, key, ProveStep(S, key, f, vk, p, Relaxed(V, X, rT)))
            && PairIsSat(S, key, ProveStep(S, key, g, vk, p, Relaxed(V, X, rT)))
            && PairIsSat(S, key, ProveStep(S, key, h, vk, p, Relaxed(V, X, rT)))
      <==> IsSatRelaxed(S, key, p.U, p.W) && IsSatRelaxed(S, key, V, X)
  {
    hide ShapeOk, IsSatRelaxed, CrossTerm, Commit, FoldInstanceRelaxed, FoldWitnessRelaxed;
    var log := [Said(Digest(vk)), Said(AbsorbRelaxed(p.U)), Said(AbsorbRelaxed(V)),
                Said(AbsorbComm(Commit(key, CrossTerm(S, p.U, p.W, V, X), rT)))];
    ThreeHonestFolds(S, key, p.U, p.W, V, X, rT, f(log), g(log), h(log));
  }

  // ------------------------------------------- any cross term, any commitment to it

  /** The gaps of a fold whose commT need not open to T. */
  lemma AnyFoldGaps(key: Key, U1: RelaxedInstance, W1: RelaxedWitness, U2: RelaxedInstance, W2: RelaxedWitness,
                    commT: Pt, T: Vec, rT: Fe, r: Fe)
    requires |U1.X| == |U2.X| && |W1.W| == |W2.W| <= |key.ck| && |W1.E| == |W2.E| == |T| <= |key.ck|
    ensures var U := FoldInstanceRelaxed(U1, U2, commT, r);
      var W := FoldWitnessRelaxed(W1, W2, T, rT, r);
      && GapW(key, U, W) == Plus(GapW(key, U1, W1), Smul(r, GapW(key, U2, W2)))
      && GapE(key, U, W) == Parabola(GapE(key, U1, W1), Gap(key, commT, T, rT), GapE(key, U2, W2), r)
  {
    hide Gap, Commit, Plus, Smul, Mul, Add, VAdd, VScale;
    GapScale(key, r, U2.commW, W2.W, W2.rW);
    GapAdd(key, U1.commW, W1.W, W1.rW, Smul(r, U2.commW), VScale(r, W2.W), Mul(r, W2.rW));
    GapScale(key, r, commT, T, rT);
    GapAdd(key, U1.commE, W1.E, W1.rE, Smul(r, commT), VScale(r, T), Mul(r, rT));
    SmulFMul(r, r, U2.commE);
    GapScale(key, Mul(r, r), U2.commE, W2.E, W2.rE);
    GapAdd(key, Plus(U1.commE, Smul(r, commT)), VAdd(W1.E, VScale(r, T)), Add(W1.rE, Mul(r, rT)),
           Smul(Mul(r, r), U2.commE), VScale(Mul(r, r), W2.E), Mul(Mul(r, r), W2.rE));
  }

  /** When both equations hold, only the honest cross term leaves no mixed part. */
  lemma MixedIsHonest(S: Shape, U1: RelaxedInstance, W1: RelaxedWitness, U2: RelaxedInstance, W2: RelaxedWitness, T: Vec)
    requires ShapeOk(S) && |W1.W| == |W2.W| == S.numVars && |U1.X| == |U2.X| == S.numIo
    requires |W1.E| == |W2.E| == |T| == S.numCons
    requires EquationHolds(S, W1.W, U1.u, U1.X, W1.E) && EquationHolds(S, W2.W, U2.u, U2.X, W2.E)
    requires forall i :: 0 <= i < S.numCons ==> RowMixed(S, Z(W1.W, U1.u, U1.X), U1.u, Z(W2.W, U2.u, U2.X), U2.u, T, i) == 0
    ensures T == CrossTerm(S, U1, W1, U2, W2)
  {
    hide ShapeOk, CrossTerm, EquationHolds, RowDefect, Z, MultiplyVec, Add, Sub, Mul;
    var (z1, z2) := (Z(W1.W, U1.u, U1.X), Z(W2.W, U2.u, U2.X));
    var t := CrossTerm(S, U1, W1, U2, W2);
    EquationAsDefects(S, W1.W, U1.u, U1.X, W1.E);
    EquationAsDefects(S, W2.W, U2.u, U2.X, W2.E);
    forall i | 0 <= i < S.numCons ensures T[i] == t[i] {
      HonestMixed(S, U1, W1, U2, W2, i);
      assert RowMixed(S, z1, U1.u, z2, U2.u, t, i) == 0 by { QuadraticZero(0); }
      assert RowMixed(S, z1, U1.u, z2, U2.u, T, i) == 0;
      SameSubtrahend(S, z1, U1.u, z2, U2.u, T, t, i);
    }
  }

  lemma SameSubtrahend(S: Shape, z1: Vec, u1: Fe, z2: Vec, u2: Fe, T: Vec, t: Vec, i: nat)
    requires ShapeOk(S) && |z1| == |z2| == S.numVars + 1 + S.numIo && |T| == |t| == S.numCons && i < S.numCons
    requires RowMixed(S, z1, u1, z2, u2, T, i) == 0 && RowMixed(S, z1, u1, z2, u2, t, i) == 0
    ensures T[i] == t[i]
  {
    hide Sparse.Valid, MultiplyVec, Sub, Add, Mul;
    var m := Sub(Add(Mul(MultiplyVec(S.A, z1)[i], MultiplyVec(S.B, z2)[i]), Mul(MultiplyVec(S.A, z2)[i], MultiplyVec(S.B, z1)[i])),
                 Add(Mul(u1, MultiplyVec(S.C, z2)[i]), Mul(u2, MultiplyVec(S.C, z1)[i])));
    SubIsZero(m, T[i]);
    SubIsZero(m, t[i]);
  }

  ghost predicate BothSat(S: Shape, key: Key, U1: RelaxedInstance, W1: RelaxedWitness, U2: RelaxedInstance,
                          W2: RelaxedWitness, commT: Pt, T: Vec, rT: Fe)
    requires ShapeOk(S) && Fits(S, key, U1, W1) && Fits(S, key, U2, W2) && |T| == S.numCons
  {
    && IsSatRelaxed(S, key, U1, W1) && IsSatRelaxed(S, key, U2, W2)
    && commT == Commit(key, T, rT) && T == CrossTerm(S, U1, W1, U2, W2)
  }

  ghost predicate AnyFoldSat(S: Shape, key: Key, U1: RelaxedInstance, W1: RelaxedWitness, U2: RelaxedInstance,
                             W2: RelaxedWitness, commT: Pt, T: Vec, rT: Fe, r: Fe)
    requires ShapeOk(S) && Fits(S, key, U1, W1) && Fits(S, key, U2, W2) && |T| == S.numCons
  {
    IsSatRelaxed(S, key, FoldInstanceRelaxed(U1, U2, commT, r), FoldWitnessRelaxed(W1, W2, T, rT, r))
  }

  lemma AnyFoldParts(S: Shape, key: Key, U1: RelaxedInstance, W1: RelaxedWitness, U2: RelaxedInstance, W2: RelaxedWitness,
                     commT: Pt, T: Vec, rT: Fe, r: Fe)
    requires ShapeOk(S) && Fits(S, key, U1, W1) && Fits(S, key, U2, W2) && |T| == S.numCons
    requires AnyFoldSat(S, key, U1, W1, U2, W2, commT, T, rT, r)
    ensures EquationHolds(S, VAdd(W1.W, VScale(r, W2.W)), Add(U1.u, Mul(r, U2.u)), VAdd(U1.X, VScale(r, U2.X)),
                          FoldE(W1.E, T, W2.E, r))
    ensures Plus(GapW(key, U1, W1), Smul(r, GapW(key, U2, W2))) == O
    ensures Parabola(GapE(key, U1, W1), Gap(key, commT, T, rT), GapE(key, U2, W2), r) == O
  {
    hide Add, Mul, Plus, Smul, EquationHolds, Parabola, VAdd, VScale, ShapeOk, GapW, GapE, Gap, IsSatRelaxed;
    AnyFoldGaps(key, U1, W1, U2, W2, commT, T, rT, r);
    SatParts(S, key, FoldInstanceRelaxed(U1, U2, commT, r), FoldWitnessRelaxed(W1, W2, T, rT, r));
  }

  /** For any vector T and any point sent as its commitment: the folds at three distinct
      challenges are all satisfying if and only if both pairs are, the point commits to
      T, and T is the cross term. */
  lemma ThreeAnyFolds(S: Shape, key: Key, U1: RelaxedInstance, W1: RelaxedWitness, U2: RelaxedInstance,
                      W2: RelaxedWitness, commT: Pt, T: Vec, rT: Fe, r1: Fe, r2: Fe, r3: Fe)
    requires ShapeOk(S) && Fits(S, key, U1, W1) && Fits(S, key, U2, W2) && |T| == S.numCons
    requires r1 != r2 && r1 != r3 && r2 != r3
    ensures AnyFoldSat(S, key, U1, W1, U2, W2, commT, T, rT, r1) && AnyFoldSat(S, key, U1, W1, U2, W2, commT, T, rT, r2)
            && AnyFoldSat(S, key, U1, W1, U2, W2, commT, T, rT, r3)
      <==> BothSat(S, key, U1, W1, U2, W2, commT, T, rT)
  {
    hide ShapeOk, IsSatRelaxed, CrossTerm, Commit, FoldInstanceRelaxed, FoldWitnessRelaxed, AnyFoldSat;
    if BothSat(S, key, U1, W1, U2, W2, commT, T, rT) {
      AnyFoldKeepsSat(S, key, U1, W1, U2, W2, commT, T, rT, r1);
      AnyFoldKeepsSat(S, key, U1, W1, U2, W2, commT, T, rT, r2);
      AnyFoldKeepsSat(S, key, U1, W1, U2, W2, commT, T, rT, r3);
    }
    if AnyFoldSat(S, key, U1, W1, U2, W2, commT, T, rT, r1) && AnyFoldSat(S, key, U1, W1, U2, W2, commT, T, rT, r2)
       && AnyFoldSat(S, key, U1, W1, U2, W2, commT, T, rT, r3) {
      ThreeAnyFoldsSound(S, key, U1, W1, U2, W2, commT, T, rT, r1, r2, r3);
    }
  }

  lemma AnyFoldKeepsSat(S: Shape, key: Key, U1: RelaxedInstance, W1: RelaxedWitness, U2: RelaxedInstance,
                        W2: RelaxedWitness, commT: Pt, T: Vec, rT: Fe, r: Fe)
    requires ShapeOk(S) && Fits(S, key, U1, W1) && Fits(S, key, U2, W2) && |T| == S.numCons
    requires BothSat(S, key, U1, W1, U2, W2, commT, T, rT)
    ensures AnyFoldSat(S, key, U1, W1, U2, W2, commT, T, rT, r)
  {
    hide ShapeOk, IsSatRelaxed, CrossTerm, Commit, FoldInstanceRelaxed, FoldWitnessRelaxed;
    FoldRelaxedIsSat(S, key, U1, W1, U2, W2, rT, r);
  }

  lemma ThreeAnyFoldsSound(S: Shape, key: Key, U1: RelaxedInstance, W1: RelaxedWitness, U2: RelaxedInstance,
                           W2: RelaxedWitness, commT: Pt, T: Vec, rT: Fe, r1: Fe, r2: Fe, r3: Fe)
    requires ShapeOk(S) && Fits(S, key, U1, W1) && Fits(S, key, U2, W2) && |T| == S.numCons
    requires r1 != r2 && r1 != r3 && r2 != r3
    requires AnyFoldSat(S, key, U1, W1, U2, W2, commT, T, rT, r1) && AnyFoldSat(S, key, U1, W1, U2, W2, commT, T, rT, r2)
    requires AnyFoldSat(S, key, U1, W1, U2, W2, commT, T, rT, r3)
    ensures BothSat(S, key, U1, W1, U2, W2, commT, T, rT)
  {
    hide ShapeOk, IsSatRelaxed, CrossTerm, Commit, AnyFoldSat, Plus, Smul, Mul, Add, VAdd, VScale, FoldE, EquationHolds,
      RowMixed, Parabola, GapW, GapE, Gap, Z;
    AnyFoldParts(S, key, U1, W1, U2, W2, commT, T, rT, r1);
    AnyFoldParts(S, key, U1, W1, U2, W2, commT, T, rT, r2);
    AnyFoldParts(S, key, U1, W1, U2, W2, commT, T, rT, r3);
    LineIsO(GapW(key, U1, W1), GapW(key, U2, W2), r1, r2);
    ParabolaIsO(GapE(key, U1, W1), Gap(key, commT, T, rT), GapE(key, U2, W2), r1, r2, r3);
    GapIsO(key, commT, T, rT);
    ThreeChallenges(S, W1.W, U1.u, U1.X, W1.E, W2.W, U2.u, U2.X, W2.E, T, r1, r2, r3);
    SatParts(S, key, U1, W1);
    SatParts(S, key, U2, W2);
    MixedIsHonest(S, U1, W1, U2, W2, T);
  }

  /** `verify_relaxed` on any message under three oracles with different answers: the
      three instances are satisfied by the folds of two witnesses along some T if and
      only if both witnesses satisfy their instances, the message commits to T, and T is
      the cross term. */
  lemma ThreeRelaxedVerifierSteps(S: Shape, key: Key, pp: Fe, U1: RelaxedInstance, W1: RelaxedWitness,
                                  V: RelaxedInstance, X: RelaxedWitness, commT: Pt, T: Vec, rT: Fe,
                                  f: Oracle<RoMsg>, g: Oracle<RoMsg>, h: Oracle<RoMsg>)
    requires ShapeOk(S) && Fits(S, key, U1, W1) && Fits(S, key, V, X) && |T| == S.numCons
    requires ThreeAnswers(f, g, h, [Said(Digest(pp)), Said(AbsorbRelaxed(U1)), Said(AbsorbRelaxed(V)), Said(AbsorbComm(commT))])
    ensures var log := [Said(Digest(pp)), Said(AbsorbRelaxed(U1)), Said(AbsorbRelaxed(V)), Said(AbsorbComm(commT))];
      (&& IsSatRelaxed(S, key, VerifyStep(f, pp, U1, PublicRelaxed(V), commT), FoldWitnessRelaxed(W1, X, T, rT, f(log)))
       && IsSatRelaxed(S, key, VerifyStep(g, pp, U1, PublicRelaxed(V), commT), FoldWitnessRelaxed(W1, X, T, rT, g(log)))
       && IsSatRelaxed(S, key, VerifyStep(h, pp, U1, PublicRelaxed(V), commT), FoldWitnessRelaxed(W1, X, T, rT, h(log))))
      <==> BothSat(S, key, U1, W1, V, X, commT, T, rT)
  {
    hide ShapeOk, IsSatRelaxed, BothSat, FoldInstanceRelaxed, FoldWitnessRelaxed;
    var log := [Said(Digest(pp)), Said(AbsorbRelaxed(U1)), Said(AbsorbRelaxed(V)), Said(AbsorbComm(commT))];
    ThreeAnyFolds(S, key, U1, W1, V, X, commT, T, rT, f(log), g(log), h(log));
  }

  /** The same for `verify`, whose second pair is strict. */
  lemma ThreeVerifierSteps(S: Shape, key: Key, pp: Fe, U1: RelaxedInstance, W1: RelaxedWitness,
                           U: Instance, W: Witness, commT: Pt, T: Vec, rT: Fe,
                           f: Oracle<RoMsg>, g: Oracle<RoMsg>, h: Oracle<RoMsg>)
    requires ShapeOk(S) && Fits(S, key, U1, W1) && FitsStrict(S, key, U, W) && |T| == S.numCons
    requires ThreeAnswers(f, g, h, [Said(Digest(pp)), Said(AbsorbStrict(U)), Said(AbsorbComm(commT))])
    ensures var log := [Said(Digest(pp)), Said(AbsorbStrict(U)), Said(AbsorbComm(commT))];
      (&& IsSatRelaxed(S, key, VerifyStep(f, pp, U1, PublicStrict(U), commT), FoldWitness(W1, W, T, rT, f(log)))
       && IsSatRelaxed(S, key, VerifyStep(g, pp, U1, PublicStrict(U), commT), FoldWitness(W1, W, T, rT, g(log)))
       && IsSatRelaxed(S, key, VerifyStep(h, pp, U1, PublicStrict(U), commT), FoldWitness(W1, W, T, rT, h(log))))
      <==> IsSatRelaxed(S, key, U1, W1) && IsSat(S, key, U, W)
           && commT == Commit(key, T, rT) && T == CrossTermStrict(S, U1, W1, U, W)
  {
    hide ShapeOk, IsSatRelaxed, IsSat, Commit, CrossTerm, CrossTermStrict, Zeros,
      FoldInstance, FoldWitness, FoldInstanceRelaxed, FoldWitnessRelaxed;
    var log := [Said(Digest(pp)), Said(AbsorbStrict(U)), Said(AbsorbComm(commT))];
    RelaxedForm(S, key, U, W);
    StrictCross(S, U1, W1, U, W);
    StrictFold(S, U1, W1, U, W, T, rT, commT, f(log));
    StrictFold(S, U1, W1, U, W, T, rT, commT, g(log));
    StrictFold(S, U1, W1, U, W, T, rT, commT, h(log));
    ThreeAnyFolds(S, key, U1, W1, Relax(U), RelaxWitness(S, W), commT, T, rT, f(log), g(log), h(log));
  }

  // ----------------------------------------------------- two answers, two instances

  /** Under two oracles the verifier's instances of a strict fold differ by the difference
      of the answers: in u by itself, in the commitments by its multiples of the strict
      instance's and of the message. */
  lemma VerifierMoves(pp: Fe, U1: RelaxedInstance, U: Instance, commT: Pt, f: Oracle<RoMsg>, g: Oracle<RoMsg>)
    requires |U1.X| == |U.X|
    ensures var log := [Said(Digest(pp)), Said(AbsorbStrict(U)), Said(AbsorbComm(commT))];
      var d := Sub(f(log), g(log));
      var (q, q') := (VerifyStep(f, pp, U1, PublicStrict(U), commT), VerifyStep(g, pp, U1, PublicStrict(U), commT));
      && Sub(q.u, q'.u) == d
      && Minus(q.commW, q'.commW) == Smul(d, U.commW) && Minus(q.commE, q'.commE) == Smul(d, commT)
      && forall i :: 0 <= i < |U.X| ==> Sub(q.X[i], q'.X[i]) == Mul(d, U.X[i])
  {
    hide Add, Mul, Sub, Plus, Smul, Minus;
    var log := [Said(Digest(pp)), Said(AbsorbStrict(U)), Said(AbsorbComm(commT))];
    var (r, s) := (f(log), g(log));
    SameStart(U1.u, r, s);
    PointsMove(U1.commW, U.commW, r, s);
    PointsMove(U1.commE, commT, r, s);
    forall i | 0 <= i < |U.X| ensures Sub(Add(U1.X[i], Mul(r, U.X[i])), Add(U1.X[i], Mul(s, U.X[i]))) == Mul(Sub(r, s), U.X[i]) {
      SameStart(U1.X[i], Mul(r, U.X[i]), Mul(s, U.X[i]));
      SubMul(r, s, U.X[i]);
    }
  }

  lemma SameStart(a: Fe, x: Fe, y: Fe)
    ensures Sub(Add(a, x), Add(a, y)) == Sub(x, y)
  {
  }

  lemma PointsMove(a: Pt, b: Pt, r: Fe, s: Fe)
    ensures Minus(Plus(a, Smul(r, b)), Plus(a, Smul(s, b))) == Smul(Sub(r, s), b)
  {
    hide *;
    MinusSwap(a, Smul(r, b), a, Smul(s, b));
    MinusIsO(a, a);
    SmulFSub(r, s, b);
    PlusO(Minus(Smul(r, b), Smul(s, b)));
  }
}
