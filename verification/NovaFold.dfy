/** Folding of relaxed R1CS pairs: the fold itself, runs of folds with a random
    oracle, and the three-challenge converse. */
module NovaFold {
  import opened PrimeField
  import opened FieldLaws
  import opened PrimeGroup
  import opened Vectors
  import opened Pedersen
  import opened Sparse
  import opened R1cs
  import opened Transcripts

  const PARALLEL_THRESHOLD := 4096

  // ---------------------------------------------------------------- cross term

  /** Z1 + Z2, built entry by entry below the threshold and by one zip above it. */
  function SumZ(W1: Vec, u1: Fe, X1: Vec, W2: Vec, X2: Vec): Vec
    requires |W1| == |W2| && |X1| == |X2|
  {
    if |W1| + 1 + |X1| <= PARALLEL_THRESHOLD then VAdd(W1, W2) + [Add(u1, 1)] + VAdd(X1, X2)
    else VAdd(Z(W1, u1, X1), Z(W2, 1, X2))
  }

  /** az * bz - u * cz - e1 - e2 in every row. */
  function CrossRows(a: Vec, b: Vec, c: Vec, u: Fe, e1: Vec, e2: Vec): (t: Vec)
    requires |a| == |b| == |c| == |e1| == |e2|
    ensures |t| == |a|
  {
    seq(|a|, i requires 0 <= i < |a| => Sub(Sub(Sub(Mul(a[i], b[i]), Mul(u, c[i])), e1[i]), e2[i]))
  }

  function CrossRowsStrict(a: Vec, b: Vec, c: Vec, u: Fe, e1: Vec): (t: Vec)
    requires |a| == |b| == |c| == |e1|
    ensures |t| == |a|
  {
    seq(|a|, i requires 0 <= i < |a| => Sub(Sub(Mul(a[i], b[i]), Mul(u, c[i])), e1[i]))
  }

  function CrossTerm(S: Shape, U1: RelaxedInstance, W1: RelaxedWitness, U2: RelaxedInstance, W2: RelaxedWitness): (t: Vec)
    requires ShapeOk(S) && |W1.W| == |W2.W| == S.numVars && |U1.X| == |U2.X| == S.numIo
    requires |W1.E| == |W2.E| == S.numCons
    ensures |t| == S.numCons
  {
    var z := VAdd(Z(W1.W, U1.u, U1.X), Z(W2.W, U2.u, U2.X));
    CrossRows(MultiplyVec(S.A, z), MultiplyVec(S.B, z), MultiplyVec(S.C, z), Add(U1.u, U2.u), W1.E, W2.E)
  }

  function CrossTermStrict(S: Shape, U1: RelaxedInstance, W1: RelaxedWitness, U2: Instance, W2: Witness): (t: Vec)
    requires ShapeOk(S) && |W1.W| == |W2.W| == S.numVars && |U1.X| == |U2.X| == S.numIo
    requires |W1.E| == S.numCons
    ensures |t| == S.numCons
  {
    var z := SumZ(W1.W, U1.u, U1.X, W2.W, U2.X);
    CrossRowsStrict(MultiplyVec(S.A, z), MultiplyVec(S.B, z), MultiplyVec(S.C, z), Add(U1.u, 1), W1.E)
  }

  // ---------------------------------------------------------------------- folds

  function FoldInstance(U1: RelaxedInstance, U2: Instance, commT: Pt, r: Fe): RelaxedInstance
    requires |U1.X| == |U2.X|
  {
    RelaxedInstance(Plus(U1.commW, Smul(r, U2.commW)), Plus(U1.commE, Smul(r, commT)),
                    VAdd(U1.X, VScale(r, U2.X)), Add(U1.u, r))
  }

  function FoldWitness(W1: RelaxedWitness, W2: Witness, T: Vec, rT: Fe, r: Fe): RelaxedWitness
    requires |W1.W| == |W2.W| && |W1.E| == |T|
  {
    RelaxedWitness(VAdd(W1.W, VScale(r, W2.W)), Add(W1.rW, Mul(r, W2.rW)),
                   VAdd(W1.E, VScale(r, T)), Add(W1.rE, Mul(r, rT)))
  }

  function FoldInstanceRelaxed(U1: RelaxedInstance, U2: RelaxedInstance, commT: Pt, r: Fe): RelaxedInstance
    requires |U1.X| == |U2.X|
  {
    RelaxedInstance(Plus(U1.commW, Smul(r, U2.commW)),
                    Plus(Plus(U1.commE, Smul(r, commT)), Smul(r, Smul(r, U2.commE))),
                    VAdd(U1.X, VScale(r, U2.X)), Add(U1.u, Mul(r, U2.u)))
  }

  function FoldWitnessRelaxed(W1: RelaxedWitness, W2: RelaxedWitness, T: Vec, rT: Fe, r: Fe): RelaxedWitness
    requires |W1.W| == |W2.W| && |W1.E| == |W2.E| == |T|
  {
    RelaxedWitness(VAdd(W1.W, VScale(r, W2.W)), Add(W1.rW, Mul(r, W2.rW)),
                   VAdd(VAdd(W1.E, VScale(r, T)), VScale(Mul(r, r), W2.E)),
                   Add(Add(W1.rE, Mul(r, rT)), Mul(Mul(r, r), W2.rE)))
  }

  // ------------------------------------------------------------- one row folds

  /** How far a row is from satisfying a * b == u * c + e. */
  function Defect(a: Fe, b: Fe, u: Fe, c: Fe, e: Fe): Fe {
    Sub(Mul(a, b), Add(Mul(u, c), e))
  }

  /** The mixed products of two rows, minus the cross term. */
  function Mixed(a1: Fe, b1: Fe, u1: Fe, c1: Fe, a2: Fe, b2: Fe, u2: Fe, c2: Fe, t: Fe): Fe {
    Sub(Sub(Add(Mul(a1, b2), Mul(a2, b1)), Add(Mul(u1, c2), Mul(u2, c1))), t)
  }

  lemma FoldDefect(a1: Fe, a2: Fe, b1: Fe, b2: Fe, c1: Fe, c2: Fe, e1: Fe, e2: Fe, r: Fe, t: Fe, u1: Fe, u2: Fe)
    ensures Sub(Mul(Add(a1, Mul(r, a2)), Add(b1, Mul(r, b2))),
                Add(Mul(Add(u1, Mul(r, u2)), Add(c1, Mul(r, c2))),
                    Add(Add(e1, Mul(r, t)), Mul(Mul(r, r), e2))))
      == Add(Add(Sub(Mul(a1, b1), Add(Mul(u1, c1), e1)),
                 Mul(r, Sub(Sub(Add(Mul(a1, b2), Mul(a2, b1)), Add(Mul(u1, c2), Mul(u2, c1))), t))),
             Mul(Mul(r, r), Sub(Mul(a2, b2), Add(Mul(u2, c2), e2))))
  {
    hide *;
    Hom();
    ROf(a1); ROf(a2); ROf(b1); ROf(b2); ROf(c1); ROf(c2); ROf(e1); ROf(e2); ROf(r); ROf(t); ROf(u1); ROf(u2);
    FoldDefectI(a1, a2, b1, b2, c1, c2, e1, e2, r, t, u1, u2);
  }

  lemma FoldDefectI(a1: int, a2: int, b1: int, b2: int, c1: int, c2: int, e1: int, e2: int, r: int, t: int, u1: int, u2: int)
    ensures ISub(IMul(IAdd(a1, IMul(r, a2)), IAdd(b1, IMul(r, b2))),
                 IAdd(IMul(IAdd(u1, IMul(r, u2)), IAdd(c1, IMul(r, c2))),
                      IAdd(IAdd(e1, IMul(r, t)), IMul(IMul(r, r), e2))))
      == IAdd(IAdd(ISub(IMul(a1, b1), IAdd(IMul(u1, c1), e1)),
                   IMul(r, ISub(ISub(IAdd(IMul(a1, b2), IMul(a2, b1)), IAdd(IMul(u1, c2), IMul(u2, c1))), t))),
              IMul(IMul(r, r), ISub(IMul(a2, b2), IAdd(IMul(u2, c2), e2))))
  {
    ExpandI(a1, a2, b1, b2, r);
    ExpandI(u1, u2, c1, c2, r);
    CollectI(a1 * b1, a1 * b2 + a2 * b1, a2 * b2, u1 * c1, u1 * c2 + u2 * c1, u2 * c2, e1, t, e2, r, r * r);
  }

  lemma ExpandI(x1: int, x2: int, y1: int, y2: int, r: int)
    ensures (x1 + r * x2) * (y1 + r * y2) == x1 * y1 + r * (x1 * y2 + x2 * y1) + (r * r) * (x2 * y2)
  {
  }

  lemma CollectI(p1: int, m: int, p2: int, q1: int, n: int, q2: int, e1: int, t: int, e2: int, r: int, rr: int)
    ensures (p1 + r * m + rr * p2) - ((q1 + r * n + rr * q2) + ((e1 + r * t) + rr * e2))
      == ((p1 - (q1 + e1)) + r * ((m - n) - t)) + rr * (p2 - (q2 + e2))
  {
  }

  lemma HonestCross(a1: Fe, a2: Fe, b1: Fe, b2: Fe, c1: Fe, c2: Fe, e1: Fe, e2: Fe, u1: Fe, u2: Fe)
    ensures Sub(Sub(Add(Mul(a1, b2), Mul(a2, b1)), Add(Mul(u1, c2), Mul(u2, c1))),
                Sub(Sub(Sub(Mul(Add(a1, a2), Add(b1, b2)), Mul(Add(u1, u2), Add(c1, c2))), e1), e2))
      == Sub(0, Add(Sub(Mul(a1, b1), Add(Mul(u1, c1), e1)), Sub(Mul(a2, b2), Add(Mul(u2, c2), e2))))
  {
    hide *;
    Hom();
    ROf(a1); ROf(a2); ROf(b1); ROf(b2); ROf(c1); ROf(c2); ROf(e1); ROf(e2); ROf(u1); ROf(u2); ROf(0);
    HonestCrossI(a1, a2, b1, b2, c1, c2, e1, e2, u1, u2);
  }

  lemma HonestCrossI(a1: int, a2: int, b1: int, b2: int, c1: int, c2: int, e1: int, e2: int, u1: int, u2: int)
    ensures ISub(ISub(IAdd(IMul(a1, b2), IMul(a2, b1)), IAdd(IMul(u1, c2), IMul(u2, c1))),
                 ISub(ISub(ISub(IMul(IAdd(a1, a2), IAdd(b1, b2)), IMul(IAdd(u1, u2), IAdd(c1, c2))), e1), e2))
      == ISub(0, IAdd(ISub(IMul(a1, b1), IAdd(IMul(u1, c1), e1)), ISub(IMul(a2, b2), IAdd(IMul(u2, c2), e2))))
  {
  }

  lemma FoldRow(a1: Fe, b1: Fe, u1: Fe, c1: Fe, e1: Fe, a2: Fe, b2: Fe, u2: Fe, c2: Fe, e2: Fe, t: Fe, r: Fe)
    ensures Defect(Add(a1, Mul(r, a2)), Add(b1, Mul(r, b2)), Add(u1, Mul(r, u2)), Add(c1, Mul(r, c2)),
                   Add(Add(e1, Mul(r, t)), Mul(Mul(r, r), e2)))
      == Quadratic(Defect(a1, b1, u1, c1, e1), Mixed(a1, b1, u1, c1, a2, b2, u2, c2, t), Defect(a2, b2, u2, c2, e2), r)
  {
    hide Add, Mul, Sub;
    FoldDefect(a1, a2, b1, b2, c1, c2, e1, e2, r, t, u1, u2);
  }

  function Quadratic(d: Fe, x: Fe, y: Fe, r: Fe): Fe {
    Add(Add(d, Mul(r, x)), Mul(Mul(r, r), y))
  }

  // ----------------------------------------------------------- all rows at once

  ghost function RowDefect(S: Shape, z: Vec, u: Fe, e: Vec, i: nat): Fe
    requires ShapeOk(S) && |z| == S.numVars + 1 + S.numIo && |e| == S.numCons && i < S.numCons
  {
    Defect(MultiplyVec(S.A, z)[i], MultiplyVec(S.B, z)[i], u, MultiplyVec(S.C, z)[i], e[i])
  }

  ghost function RowMixed(S: Shape, z1: Vec, u1: Fe, z2: Vec, u2: Fe, t: Vec, i: nat): Fe
    requires ShapeOk(S) && |z1| == |z2| == S.numVars + 1 + S.numIo && |t| == S.numCons && i < S.numCons
  {
    Mixed(MultiplyVec(S.A, z1)[i], MultiplyVec(S.B, z1)[i], u1, MultiplyVec(S.C, z1)[i],
          MultiplyVec(S.A, z2)[i], MultiplyVec(S.B, z2)[i], u2, MultiplyVec(S.C, z2)[i], t[i])
  }

  lemma EquationAsDefects(S: Shape, W: Vec, u: Fe, X: Vec, E: Vec)
    requires ShapeOk(S) && |W| == S.numVars && |X| == S.numIo && |E| == S.numCons
    ensures EquationHolds(S, W, u, X, E) <==> forall i :: 0 <= i < S.numCons ==> RowDefect(S, Z(W, u, X), u, E, i) == 0
  {
    hide Add, Mul, Sub, MultiplyVec, Sparse.Valid;
    var z := Z(W, u, X);
    var (a, b, c) := (MultiplyVec(S.A, z), MultiplyVec(S.B, z), MultiplyVec(S.C, z));
    forall i | 0 <= i < S.numCons
      ensures RowDefect(S, z, u, E, i) == 0 <==> Mul(a[i], b[i]) == Add(Mul(u, c[i]), E[i])
    {
      SubIsZero(Mul(a[i], b[i]), Add(Mul(u, c[i]), E[i]));
    }
    if forall i :: 0 <= i < S.numCons ==> RowDefect(S, z, u, E, i) == 0 {
      forall i | 0 <= i < |a| ensures Mul(a[i], b[i]) == Add(Mul(u, c[i]), E[i]) {
        assert RowDefect(S, z, u, E, i) == 0;
      }
    }
  }

  lemma MultiplyFold(m: SparseMatrix, z1: Vec, z2: Vec, r: Fe, i: nat)
    requires Sparse.Valid(m) && |z1| == |z2| == m.cols && i < NumRows(m)
    ensures MultiplyVec(m, VAdd(z1, VScale(r, z2)))[i] == Add(MultiplyVec(m, z1)[i], Mul(r, MultiplyVec(m, z2)[i]))
  {
    hide Add, Mul, MultiplyVec;
    MultiplyAdd(m, z1, VScale(r, z2));
    MultiplyScale(m, r, z2);
  }

  function FoldE(e1: Vec, t: Vec, e2: Vec, r: Fe): (e: Vec)
    requires |e1| == |t| == |e2|
    ensures |e| == |e1|
  {
    VAdd(VAdd(e1, VScale(r, t)), VScale(Mul(r, r), e2))
  }

  /** For every witness pair, every T and every challenge, the defect of a folded row
      is a quadratic in the challenge with the two defects at its ends. */
  lemma FoldedDefect(S: Shape, z1: Vec, u1: Fe, e1: Vec, z2: Vec, u2: Fe, e2: Vec, t: Vec, r: Fe, i: nat)
    requires ShapeOk(S) && |z1| == |z2| == S.numVars + 1 + S.numIo && |t| == |e1| == |e2| == S.numCons && i < S.numCons
    ensures RowDefect(S, VAdd(z1, VScale(r, z2)), Add(u1, Mul(r, u2)), FoldE(e1, t, e2, r), i)
      == Quadratic(RowDefect(S, z1, u1, e1, i), RowMixed(S, z1, u1, z2, u2, t, i), RowDefect(S, z2, u2, e2, i), r)
  {
    hide Add, Mul, MultiplyVec, Defect, Mixed, Quadratic, Sparse.Valid;
    MultiplyFold(S.A, z1, z2, r, i);
    MultiplyFold(S.B, z1, z2, r, i);
    MultiplyFold(S.C, z1, z2, r, i);
    FoldRow(MultiplyVec(S.A, z1)[i], MultiplyVec(S.B, z1)[i], u1, MultiplyVec(S.C, z1)[i], e1[i],
            MultiplyVec(S.A, z2)[i], MultiplyVec(S.B, z2)[i], u2, MultiplyVec(S.C, z2)[i], e2[i], t[i], r);
  }

  lemma FoldZ(W1: Vec, u1: Fe, X1: Vec, W2: Vec, u2: Fe, X2: Vec, r: Fe)
    requires |W1| == |W2| && |X1| == |X2|
    ensures Z(VAdd(W1, VScale(r, W2)), Add(u1, Mul(r, u2)), VAdd(X1, VScale(r, X2)))
      == VAdd(Z(W1, u1, X1), VScale(r, Z(W2, u2, X2)))
  {
    hide Add, Mul;
  }

  // ------------------------------------------------------------- completeness

  /** With the honest cross term the mixed part cancels the two defects. */
  lemma HonestMixed(S: Shape, U1: RelaxedInstance, W1: RelaxedWitness, U2: RelaxedInstance, W2: RelaxedWitness, i: nat)
    requires ShapeOk(S) && |W1.W| == |W2.W| == S.numVars && |U1.X| == |U2.X| == S.numIo
    requires |W1.E| == |W2.E| == S.numCons && i < S.numCons
    ensures var z1, z2 := Z(W1.W, U1.u, U1.X), Z(W2.W, U2.u, U2.X);
      RowMixed(S, z1, U1.u, z2, U2.u, CrossTerm(S, U1, W1, U2, W2), i)
      == Neg(Add(RowDefect(S, z1, U1.u, W1.E, i), RowDefect(S, z2, U2.u, W2.E, i)))
  {
    hide Add, Mul, Sub, MultiplyVec, Sparse.Valid, Z;
    var z1, z2 := Z(W1.W, U1.u, U1.X), Z(W2.W, U2.u, U2.X);
    MultiplyAdd(S.A, z1, z2);
    MultiplyAdd(S.B, z1, z2);
    MultiplyAdd(S.C, z1, z2);
    HonestCross(MultiplyVec(S.A, z1)[i], MultiplyVec(S.A, z2)[i], MultiplyVec(S.B, z1)[i], MultiplyVec(S.B, z2)[i],
                MultiplyVec(S.C, z1)[i], MultiplyVec(S.C, z2)[i], W1.E[i], W2.E[i], U1.u, U2.u);
  }

  /** Folding two satisfied equations gives a satisfied equation. */
  lemma FoldEquation(S: Shape, U1: RelaxedInstance, W1: RelaxedWitness, U2: RelaxedInstance, W2: RelaxedWitness, r: Fe)
    requires ShapeOk(S) && |W1.W| == |W2.W| == S.numVars && |U1.X| == |U2.X| == S.numIo
    requires |W1.E| == |W2.E| == S.numCons
    requires EquationHolds(S, W1.W, U1.u, U1.X, W1.E) && EquationHolds(S, W2.W, U2.u, U2.X, W2.E)
    ensures EquationHolds(S, VAdd(W1.W, VScale(r, W2.W)), Add(U1.u, Mul(r, U2.u)), VAdd(U1.X, VScale(r, U2.X)),
                          FoldE(W1.E, CrossTerm(S, U1, W1, U2, W2), W2.E, r))
  {
    hide Add, Mul, MultiplyVec, Sparse.Valid, RowDefect, RowMixed, CrossTerm, EquationHolds, FoldE, VAdd, VScale, Z;
    var z1, z2 := Z(W1.W, U1.u, U1.X), Z(W2.W, U2.u, U2.X);
    var t := CrossTerm(S, U1, W1, U2, W2);
    var u := Add(U1.u, Mul(r, U2.u));
    var e := FoldE(W1.E, t, W2.E, r);
    EquationAsDefects(S, W1.W, U1.u, U1.X, W1.E);
    EquationAsDefects(S, W2.W, U2.u, U2.X, W2.E);
    FoldZ(W1.W, U1.u, U1.X, W2.W, U2.u, U2.X, r);
    forall i | 0 <= i < S.numCons
      ensures RowDefect(S, VAdd(z1, VScale(r, z2)), u, e, i) == 0
    {
      FoldedDefect(S, z1, U1.u, W1.E, z2, U2.u, W2.E, t, r, i);
      HonestMixed(S, U1, W1, U2, W2, i);
      QuadraticZero(r);
    }
    EquationAsDefects(S, VAdd(W1.W, VScale(r, W2.W)), u, VAdd(U1.X, VScale(r, U2.X)), e);
  }

  lemma QuadraticZero(r: Fe)
    ensures Neg(Add(0, 0)) == 0 && Quadratic(0, 0, 0, r) == 0
  {
    MulOne(r);
    MulOne(Mul(r, r));
  }

  /** Folding two satisfying relaxed pairs gives a satisfying relaxed pair: the
      equation and both commitments, for every challenge and every blinding. */
  lemma FoldRelaxedIsSat(S: Shape, key: Key, U1: RelaxedInstance, W1: RelaxedWitness,
                         U2: RelaxedInstance, W2: RelaxedWitness, rT: Fe, r: Fe)
    requires IsSatRelaxed(S, key, U1, W1) && IsSatRelaxed(S, key, U2, W2)
    ensures var T := CrossTerm(S, U1, W1, U2, W2);
      IsSatRelaxed(S, key, FoldInstanceRelaxed(U1, U2, Commit(key, T, rT), r), FoldWitnessRelaxed(W1, W2, T, rT, r))
  {
    hide Add, Mul, Plus, Smul, MultiplyVec, Sparse.Valid, CrossTerm, EquationHolds, Commit, VAdd, VScale;
    var T := CrossTerm(S, U1, W1, U2, W2);
    FoldEquation(S, U1, W1, U2, W2, r);
    CommitScale(key, r, W2.W, W2.rW);
    CommitAdd(key, W1.W, VScale(r, W2.W), W1.rW, Mul(r, W2.rW));
    CommitScale(key, r, T, rT);
    CommitAdd(key, W1.E, VScale(r, T), W1.rE, Mul(r, rT));
    CommitScale(key, Mul(r, r), W2.E, W2.rE);
    CommitAdd(key, VAdd(W1.E, VScale(r, T)), VScale(Mul(r, r), W2.E), Add(W1.rE, Mul(r, rT)), Mul(Mul(r, r), W2.rE));
    SmulFMul(r, r, U2.commE);
  }

  // The strict fold is the relaxed fold with u = 1 and no error.

  lemma SumZIsSum(W1: Vec, u1: Fe, X1: Vec, W2: Vec, X2: Vec)
    requires |W1| == |W2| && |X1| == |X2|
    ensures SumZ(W1, u1, X1, W2, X2) == VAdd(Z(W1, u1, X1), Z(W2, 1, X2))
  {
    hide Add;
  }

  lemma StrictCross(S: Shape, U1: RelaxedInstance, W1: RelaxedWitness, U2: Instance, W2: Witness)
    requires ShapeOk(S) && |W1.W| == |W2.W| == S.numVars && |U1.X| == |U2.X| == S.numIo && |W1.E| == S.numCons
    ensures CrossTermStrict(S, U1, W1, U2, W2) == CrossTerm(S, U1, W1, Relax(U2), RelaxWitness(S, W2))
  {
    hide MultiplyVec, Sparse.Valid, Mul, VAdd, SumZ, Z;
    SumZIsSum(W1.W, U1.u, U1.X, W2.W, U2.X);
  }

  lemma StrictFold(S: Shape, U1: RelaxedInstance, W1: RelaxedWitness, U2: Instance, W2: Witness, T: Vec, rT: Fe, commT: Pt, r: Fe)
    requires |W1.W| == |W2.W| && |U1.X| == |U2.X| && |T| == |W1.E| == S.numCons
    ensures FoldInstance(U1, U2, commT, r) == FoldInstanceRelaxed(U1, Relax(U2), commT, r)
    ensures FoldWitness(W1, W2, T, rT, r) == FoldWitnessRelaxed(W1, RelaxWitness(S, W2), T, rT, r)
  {
    hide Mul, Plus, Smul;
    SmulO(r);
    PlusO(Plus(U1.commE, Smul(r, commT)));
    MulOne(r);
    MulOne(Mul(r, r));
    AddZero(Add(W1.rE, Mul(r, rT)));
    ScaleZeros(Mul(r, r), VAdd(W1.E, VScale(r, T)));
  }

  lemma ScaleZeros(k: Fe, e: Vec)
    ensures VAdd(e, VScale(k, Zeros(|e|))) == e
  {
    hide Mul;
    MulOne(k);
  }

  lemma FoldIsSat(S: Shape, key: Key, U1: RelaxedInstance, W1: RelaxedWitness, U2: Instance, W2: Witness, rT: Fe, r: Fe)
    requires IsSatRelaxed(S, key, U1, W1) && IsSat(S, key, U2, W2)
    ensures var T := CrossTermStrict(S, U1, W1, U2, W2);
      IsSatRelaxed(S, key, FoldInstance(U1, U2, Commit(key, T, rT), r), FoldWitness(W1, W2, T, rT, r))
  {
    hide Commit, CrossTerm, CrossTermStrict, EquationHolds, FoldInstance, FoldWitness, FoldInstanceRelaxed, FoldWitnessRelaxed,
      MultiplyVec, Sparse.Valid;
    RelaxedForm(S, key, U2, W2);
    StrictCross(S, U1, W1, U2, W2);
    var T := CrossTermStrict(S, U1, W1, U2, W2);
    FoldRelaxedIsSat(S, key, U1, W1, Relax(U2), RelaxWitness(S, W2), rT, r);
    StrictFold(S, U1, W1, U2, W2, T, rT, Commit(key, T, rT), r);
  }

  // -------------------------------------------------- the three-challenge converse

  lemma ThreeRoots(d: Fe, x: Fe, y: Fe, r1: Fe, r2: Fe, r3: Fe)
    requires r1 != r2 && r1 != r3 && r2 != r3
    requires Quadratic(d, x, y, r1) == 0 && Quadratic(d, x, y, r2) == 0 && Quadratic(d, x, y, r3) == 0
    ensures d == 0 && x == 0 && y == 0
  {
    hide Add, Mul, Sub;
    TwoRoots(d, x, y, r1, r2);
    TwoRoots(d, x, y, r1, r3);
    // x + (r1 + r2) y == 0 == x + (r1 + r3) y
    AddCancel(Mul(Add(r1, r2), y), Mul(Add(r1, r3), y), x);
    AddCancel(r2, r3, r1);
    if y != 0 { MulCancel(Add(r1, r2), Add(r1, r3), y); }
    MulOne(Add(r1, r2));
    AddZero(x);
    MulOne(r1);
    MulOne(Mul(r1, r1));
    AddZero(d);
  }

  lemma TwoRoots(d: Fe, x: Fe, y: Fe, r: Fe, s: Fe)
    requires r != s && Quadratic(d, x, y, r) == 0 && Quadratic(d, x, y, s) == 0
    ensures Add(x, Mul(Add(r, s), y)) == 0
  {
    hide Add, Mul, Sub;
    QuadraticDifference(d, r, s, x, y);
    AddZero(0);
    SubIsZero(r, s);
    NoZeroDivisors(Sub(r, s), Add(x, Mul(Add(r, s), y)));
  }

  lemma QuadraticDifference(d: Fe, r: Fe, s: Fe, x: Fe, y: Fe)
    ensures Mul(Sub(r, s), Add(x, Mul(Add(r, s), y)))
      == Sub(Add(Add(d, Mul(r, x)), Mul(Mul(r, r), y)), Add(Add(d, Mul(s, x)), Mul(Mul(s, s), y)))
  {
    hide *;
    Hom();
    ROf(d); ROf(r); ROf(s); ROf(x); ROf(y);
    QuadraticDifferenceI(d, r, s, x, y);
  }

  lemma QuadraticDifferenceI(d: int, r: int, s: int, x: int, y: int)
    ensures IMul(ISub(r, s), IAdd(x, IMul(IAdd(r, s), y)))
      == ISub(IAdd(IAdd(d, IMul(r, x)), IMul(IMul(r, r), y)), IAdd(IAdd(d, IMul(s, x)), IMul(IMul(s, s), y)))
  {
  }

  /** The fold is satisfied only if both inputs are: for fixed witnesses, error
      vectors and T, if the folded equation holds at three distinct challenges, then
      both input equations hold (and the honest T was the only possible one). */
  lemma ThreeChallenges(S: Shape, W1: Vec, u1: Fe, X1: Vec, E1: Vec, W2: Vec, u2: Fe, X2: Vec, E2: Vec, T: Vec,
                        r1: Fe, r2: Fe, r3: Fe)
    requires ShapeOk(S) && |W1| == |W2| == S.numVars && |X1| == |X2| == S.numIo && |E1| == |E2| == |T| == S.numCons
    requires r1 != r2 && r1 != r3 && r2 != r3
    requires forall r :: r in {r1, r2, r3} ==>
      EquationHolds(S, VAdd(W1, VScale(r, W2)), Add(u1, Mul(r, u2)), VAdd(X1, VScale(r, X2)), FoldE(E1, T, E2, r))
    ensures EquationHolds(S, W1, u1, X1, E1) && EquationHolds(S, W2, u2, X2, E2)
    ensures forall i :: 0 <= i < S.numCons ==> RowMixed(S, Z(W1, u1, X1), u1, Z(W2, u2, X2), u2, T, i) == 0
  {
    hide Add, Mul, MultiplyVec, Sparse.Valid, RowDefect, RowMixed, EquationHolds, FoldE, VAdd, VScale, Z, Quadratic;
    var z1, z2 := Z(W1, u1, X1), Z(W2, u2, X2);
    forall i | 0 <= i < S.numCons
      ensures RowDefect(S, z1, u1, E1, i) == 0 && RowDefect(S, z2, u2, E2, i) == 0 && RowMixed(S, z1, u1, z2, u2, T, i) == 0
    {
      forall r | r in {r1, r2, r3}
        ensures Quadratic(RowDefect(S, z1, u1, E1, i), RowMixed(S, z1, u1, z2, u2, T, i), RowDefect(S, z2, u2, E2, i), r) == 0
      {
        RowAtChallenge(S, W1, u1, X1, E1, W2, u2, X2, E2, T, r, i);
      }
      ThreeRoots(RowDefect(S, z1, u1, E1, i), RowMixed(S, z1, u1, z2, u2, T, i), RowDefect(S, z2, u2, E2, i), r1, r2, r3);
    }
    EquationAsDefects(S, W1, u1, X1, E1);
    EquationAsDefects(S, W2, u2, X2, E2);
  }

  lemma RowAtChallenge(S: Shape, W1: Vec, u1: Fe, X1: Vec, E1: Vec, W2: Vec, u2: Fe, X2: Vec, E2: Vec, T: Vec, r: Fe, i: nat)
    requires ShapeOk(S) && |W1| == |W2| == S.numVars && |X1| == |X2| == S.numIo && |E1| == |E2| == |T| == S.numCons
    requires i < S.numCons
    requires EquationHolds(S, VAdd(W1, VScale(r, W2)), Add(u1, Mul(r, u2)), VAdd(X1, VScale(r, X2)), FoldE(E1, T, E2, r))
    ensures var z1, z2 := Z(W1, u1, X1), Z(W2, u2, X2);
      Quadratic(RowDefect(S, z1, u1, E1, i), RowMixed(S, z1, u1, z2, u2, T, i), RowDefect(S, z2, u2, E2, i), r) == 0
  {
    hide Add, Mul, MultiplyVec, Sparse.Valid, RowDefect, RowMixed, EquationHolds, FoldE, VAdd, VScale, Z, Quadratic;
    EquationAsDefects(S, VAdd(W1, VScale(r, W2)), Add(u1, Mul(r, u2)), VAdd(X1, VScale(r, X2)), FoldE(E1, T, E2, r));
    FoldZ(W1, u1, X1, W2, u2, X2, r);
    FoldedDefect(S, Z(W1, u1, X1), u1, E1, Z(W2, u2, X2), u2, E2, T, r, i);
  }

  // ------------------------------------------------- when one challenge is enough

  lemma HonestQuadratic(d: Fe, e: Fe, r: Fe)
    ensures Add(Add(d, Mul(r, Sub(0, Add(d, e)))), Mul(Mul(r, r), e)) == Mul(Sub(1, r), Sub(d, Mul(r, e)))
  {
    hide *;
    Hom();
    ROf(d); ROf(e); ROf(r); ROf(0); ROf(1);
    HonestQuadraticI(d, e, r);
  }

  lemma HonestQuadraticI(d: int, e: int, r: int)
    ensures IAdd(IAdd(d, IMul(r, ISub(0, IAdd(d, e)))), IMul(IMul(r, r), e))
      == IMul(ISub(1, r), ISub(d, IMul(r, e)))
  {
  }

  /** With the honest cross term the folded equation holds exactly when r is 1 or
      every row of the first pair misses by r times what the second one misses by. */
  lemma HonestEquationExactly(S: Shape, U1: RelaxedInstance, W1: RelaxedWitness, U2: RelaxedInstance, W2: RelaxedWitness, r: Fe)
    requires ShapeOk(S) && |W1.W| == |W2.W| == S.numVars && |U1.X| == |U2.X| == S.numIo
    requires |W1.E| == |W2.E| == S.numCons
    ensures EquationHolds(S, VAdd(W1.W, VScale(r, W2.W)), Add(U1.u, Mul(r, U2.u)), VAdd(U1.X, VScale(r, U2.X)),
                          FoldE(W1.E, CrossTerm(S, U1, W1, U2, W2), W2.E, r))
      <==> r == 1 || forall i :: 0 <= i < S.numCons ==>
             RowDefect(S, Z(W1.W, U1.u, U1.X), U1.u, W1.E, i)
             == Mul(r, RowDefect(S, Z(W2.W, U2.u, U2.X), U2.u, W2.E, i))
  {
    hide Add, Mul, Sub, MultiplyVec, Sparse.Valid, RowDefect, RowMixed, CrossTerm, EquationHolds, FoldE, VAdd, VScale, Z;
    var z1, z2 := Z(W1.W, U1.u, U1.X), Z(W2.W, U2.u, U2.X);
    var t := CrossTerm(S, U1, W1, U2, W2);
    var u := Add(U1.u, Mul(r, U2.u));
    var e := FoldE(W1.E, t, W2.E, r);
    FoldZ(W1.W, U1.u, U1.X, W2.W, U2.u, U2.X, r);
    var z := VAdd(z1, VScale(r, z2));
    SubIsZero(1, r);
    forall i | 0 <= i < S.numCons
      ensures RowDefect(S, z, u, e, i) == 0
        <==> r == 1 || RowDefect(S, z1, U1.u, W1.E, i) == Mul(r, RowDefect(S, z2, U2.u, W2.E, i))
    {
      var (d1, d2) := (RowDefect(S, z1, U1.u, W1.E, i), RowDefect(S, z2, U2.u, W2.E, i));
      FoldedDefect(S, z1, U1.u, W1.E, z2, U2.u, W2.E, t, r, i);
      HonestMixed(S, U1, W1, U2, W2, i);
      HonestQuadratic(d1, d2, r);
      NoZeroDivisors(Sub(1, r), Sub(d1, Mul(r, d2)));
      SubIsZero(d1, Mul(r, d2));
    }
    EquationAsDefects(S, VAdd(W1.W, VScale(r, W2.W)), u, VAdd(U1.X, VScale(r, U2.X)), e);
  }

  /** Every row of the first pair misses by r times what the second one misses by. */
  ghost predicate DefectsAlign(S: Shape, U1: RelaxedInstance, W1: RelaxedWitness, U2: RelaxedInstance, W2: RelaxedWitness, r: Fe)
    requires ShapeOk(S) && |W1.W| == |W2.W| == S.numVars && |U1.X| == |U2.X| == S.numIo
    requires |W1.E| == |W2.E| == S.numCons
  {
    forall i :: 0 <= i < S.numCons ==>
      RowDefect(S, Z(W1.W, U1.u, U1.X), U1.u, W1.E, i) == Mul(r, RowDefect(S, Z(W2.W, U2.u, U2.X), U2.u, W2.E, i))
  }

  /** By how much the two commitments of a pair fail to open. */
  function GapW(key: Key, U: RelaxedInstance, W: RelaxedWitness): Pt
    requires |W.W| <= |key.ck|
  {
    Gap(key, U.commW, W.W, W.rW)
  }

  function GapE(key: Key, U: RelaxedInstance, W: RelaxedWitness): Pt
    requires |W.E| <= |key.ck|
  {
    Gap(key, U.commE, W.E, W.rE)
  }

  lemma SatParts(S: Shape, key: Key, U: RelaxedInstance, W: RelaxedWitness)
    requires ShapeOk(S) && Fits(S, key, U, W)
    ensures IsSatRelaxed(S, key, U, W)
      <==> EquationHolds(S, W.W, U.u, U.X, W.E) && GapW(key, U, W) == O && GapE(key, U, W) == O
  {
    hide Gap, Commit, EquationHolds, ShapeOk;
    GapIsO(key, U.commW, W.W, W.rW);
    GapIsO(key, U.commE, W.E, W.rE);
  }

  /** Folding adds the gaps, whatever the cross term. */
  lemma FoldGaps(key: Key, U1: RelaxedInstance, W1: RelaxedWitness, U2: RelaxedInstance, W2: RelaxedWitness,
                 T: Vec, rT: Fe, r: Fe)
    requires |U1.X| == |U2.X| && |W1.W| == |W2.W| <= |key.ck| && |W1.E| == |W2.E| == |T| <= |key.ck|
    ensures var U := FoldInstanceRelaxed(U1, U2, Commit(key, T, rT), r);
      var W := FoldWitnessRelaxed(W1, W2, T, rT, r);
      && GapW(key, U, W) == Plus(GapW(key, U1, W1), Smul(r, GapW(key, U2, W2)))
      && GapE(key, U, W) == Plus(GapE(key, U1, W1), Smul(Mul(r, r), GapE(key, U2, W2)))
  {
    hide Gap, Commit, Plus, Smul, Mul, Add, VAdd, VScale;
    GapScale(key, r, U2.commW, W2.W, W2.rW);
    GapAdd(key, U1.commW, W1.W, W1.rW, Smul(r, U2.commW), VScale(r, W2.W), Mul(r, W2.rW));
    var commT := Commit(key, T, rT);
    GapScale(key, r, commT, T, rT);
    GapIsO(key, commT, T, rT);
    SmulO(r);
    GapAdd(key, U1.commE, W1.E, W1.rE, Smul(r, commT), VScale(r, T), Mul(r, rT));
    PlusO(GapE(key, U1, W1));
    SmulFMul(r, r, U2.commE);
    GapScale(key, Mul(r, r), U2.commE, W2.E, W2.rE);
    GapAdd(key, Plus(U1.commE, Smul(r, commT)), VAdd(W1.E, VScale(r, T)), Add(W1.rE, Mul(r, rT)),
           Smul(Mul(r, r), U2.commE), VScale(Mul(r, r), W2.E), Mul(Mul(r, r), W2.rE));
  }

  /** The documented guarantee, that the folded pair is satisfying if and only if both
      inputs are, does not hold at every challenge.  For any two pairs, the honestly
      folded pair is satisfying exactly when r is 1 or the row defects align, and the
      gaps of the commitments cancel. */
  lemma HonestFoldExactly(S: Shape, key: Key, U1: RelaxedInstance, W1: RelaxedWitness,
                          U2: RelaxedInstance, W2: RelaxedWitness, rT: Fe, r: Fe)
    requires ShapeOk(S) && Fits(S, key, U1, W1) && Fits(S, key, U2, W2)
    ensures var T := CrossTerm(S, U1, W1, U2, W2);
      IsSatRelaxed(S, key, FoldInstanceRelaxed(U1, U2, Commit(key, T, rT), r), FoldWitnessRelaxed(W1, W2, T, rT, r))
      <==> (r == 1 || DefectsAlign(S, U1, W1, U2, W2, r))
           && Plus(GapW(key, U1, W1), Smul(r, GapW(key, U2, W2))) == O
           && Plus(GapE(key, U1, W1), Smul(Mul(r, r), GapE(key, U2, W2))) == O
  {
    hide Add, Mul, Plus, Smul, CrossTerm, EquationHolds, Commit, VAdd, VScale, ShapeOk, RowDefect, GapW, GapE, IsSatRelaxed;
    var T := CrossTerm(S, U1, W1, U2, W2);
    HonestEquationExactly(S, U1, W1, U2, W2, r);
    FoldGaps(key, U1, W1, U2, W2, T, rT, r);
    SatParts(S, key, FoldInstanceRelaxed(U1, U2, Commit(key, T, rT), r), FoldWitnessRelaxed(W1, W2, T, rT, r));
  }

  /** The same for a strict second pair, which has no error to align or to cancel with. */
  lemma HonestStrictFoldExactly(S: Shape, key: Key, U1: RelaxedInstance, W1: RelaxedWitness,
                                U2: Instance, W2: Witness, rT: Fe, r: Fe)
    requires ShapeOk(S) && Fits(S, key, U1, W1) && FitsStrict(S, key, U2, W2)
    ensures var T := CrossTermStrict(S, U1, W1, U2, W2);
      IsSatRelaxed(S, key, FoldInstance(U1, U2, Commit(key, T, rT), r), FoldWitness(W1, W2, T, rT, r))
      <==> (r == 1 || DefectsAlign(S, U1, W1, Relax(U2), RelaxWitness(S, W2), r))
           && Plus(GapW(key, U1, W1), Smul(r, Gap(key, U2.commW, W2.W, W2.rW))) == O
           && GapE(key, U1, W1) == O
  {
    hide Add, Mul, Plus, Smul, CrossTerm, CrossTermStrict, Commit, ShapeOk, DefectsAlign, IsSatRelaxed, Zeros, Gap,
      FoldInstance, FoldWitness, FoldInstanceRelaxed, FoldWitnessRelaxed;
    StrictCross(S, U1, W1, U2, W2);
    var T := CrossTermStrict(S, U1, W1, U2, W2);
    StrictFold(S, U1, W1, U2, W2, T, rT, Commit(key, T, rT), r);
    HonestFoldExactly(S, key, U1, W1, Relax(U2), RelaxWitness(S, W2), rT, r);
    CommitZeros(key, S.numCons);
    GapIsO(key, O, Zeros(S.numCons), 0);
    SmulO(Mul(r, r));
    PlusO(GapE(key, U1, W1));
  }

  /** One constraint without entries, and a committed error of 1 in the first pair: for
      an oracle that answers 1, `prove` folds it with a satisfying strict pair into a
      satisfying pair, although the first pair is not satisfying. */
  lemma OneChallengeIsNotEnough(key: Key, pp: Fe, rT: Fe)
    requires |key.ck| >= 1
    ensures var m := SparseMatrix([], [], [0, 0], 1); var S := Shape(1, 0, 0, m, m, m);
      var p := Pair(RelaxedInstance(O, Commit(key, [1], 0), [], 0), RelaxedWitness([], 0, [1], 0));
      var s := Strict(Instance(O, []), Witness([], 0), rT);
      && ShapeOk(S) && Fits(S, key, p.U, p.W) && StepFits(S, key, s)
      && !IsSatRelaxed(S, key, p.U, p.W) && IsSat(S, key, s.U, s.W)
      && var q := ProveStep(S, key, _ => 1, pp, p, s); IsSatRelaxed(S, key, q.U, q.W)
  {
    hide CrossTermStrict, RowDefect, Commit, FoldInstance, FoldWitness, Add, Gap, DefectsAlign, MultiplyVec;
    var m := SparseMatrix([], [], [0, 0], 1);
    var S := Shape(1, 0, 0, m, m, m);
    var (U1, W1) := (RelaxedInstance(O, Commit(key, [1], 0), [], 0), RelaxedWitness([], 0, [1], 0));
    var (U2, W2) := (Instance(O, []), Witness([], 0));
    NoEntries(0);
    NoEntries(1);
    AddZero(1);
    MulOne(0);
    CommitZeros(key, 0);
    assert Zeros(0) == [];
    assert !RowsHold([0], [0], [0], 0, [1]) by { assert Mul([0][0], [0][0]) != Add(Mul(0, [0][0]), [1][0]); }
    GapIsO(key, O, [], 0);
    GapIsO(key, U1.commE, [1], 0);
    SmulO(1);
    PlusO(O);
    HonestStrictFoldExactly(S, key, U1, W1, U2, W2, rT, 1);
  }

  lemma NoEntries(u: Fe)
    ensures var m := SparseMatrix([], [], [0, 0], 1); Sparse.Valid(m) && MultiplyVec(m, Z([], u, [])) == [0]
  {
    var m := SparseMatrix([], [], [0, 0], 1);
    assert Row(m, 0) == [];
  }

  lemma SquaresDiffer(x: Fe, y: Fe, z: Fe)
    requires x != y && x != z && y != z
    ensures Mul(x, x) != Mul(y, y) || Mul(x, x) != Mul(z, z)
  {
    hide Add, Mul, Sub;
    if Mul(x, x) == Mul(y, y) && Mul(x, x) == Mul(z, z) {
      SquareRoot(x, y);
      SquareRoot(x, z);
      AddCancel(y, z, x);
      assert false;
    }
  }

  lemma SquareRoot(x: Fe, y: Fe)
    requires x != y && Mul(x, x) == Mul(y, y)
    ensures Add(x, y) == 0
  {
    hide Add, Mul, Sub;
    QuadraticDifference(0, x, y, 0, 1);
    MulOne(x);
    MulOne(y);
    MulOne(Add(x, y));
    MulOne(Mul(x, x));
    AddZero(0);
    AddZero(Add(x, y));
    AddZero(Mul(x, x));
    SubIsZero(x, y);
    NoZeroDivisors(Sub(x, y), Add(x, y));
  }

  /** One row: aligned at two challenges means no defect at all. */
  lemma AlignedTwice(d: Fe, e: Fe, x: Fe, y: Fe)
    requires x != y && d == Mul(x, e) && d == Mul(y, e)
    ensures d == 0 && e == 0
  {
    hide Mul;
    if e != 0 { MulCancel(x, y, e); }
    MulOne(x);
  }

  ghost predicate FoldSat(S: Shape, key: Key, U1: RelaxedInstance, W1: RelaxedWitness,
                          U2: RelaxedInstance, W2: RelaxedWitness, rT: Fe, r: Fe)
    requires ShapeOk(S) && Fits(S, key, U1, W1) && Fits(S, key, U2, W2)
  {
    var T := CrossTerm(S, U1, W1, U2, W2);
    IsSatRelaxed(S, key, FoldInstanceRelaxed(U1, U2, Commit(key, T, rT), r), FoldWitnessRelaxed(W1, W2, T, rT, r))
  }

  /** What does hold: the honest folds at three distinct challenges are all satisfying,
      commitments included, if and only if both inputs are. */
  lemma ThreeHonestFolds(S: Shape, key: Key, U1: RelaxedInstance, W1: RelaxedWitness,
                         U2: RelaxedInstance, W2: RelaxedWitness, rT: Fe, r1: Fe, r2: Fe, r3: Fe)
    requires ShapeOk(S) && Fits(S, key, U1, W1) && Fits(S, key, U2, W2)
    requires r1 != r2 && r1 != r3 && r2 != r3
    ensures FoldSat(S, key, U1, W1, U2, W2, rT, r1) && FoldSat(S, key, U1, W1, U2, W2, rT, r2)
            && FoldSat(S, key, U1, W1, U2, W2, rT, r3)
      <==> IsSatRelaxed(S, key, U1, W1) && IsSatRelaxed(S, key, U2, W2)
  {
    hide IsSatRelaxed, FoldInstanceRelaxed, FoldWitnessRelaxed, CrossTerm, Commit, ShapeOk, Plus, Smul, Mul, GapW, GapE,
      DefectsAlign, EquationHolds;
    if IsSatRelaxed(S, key, U1, W1) && IsSatRelaxed(S, key, U2, W2) {
      FoldRelaxedIsSat(S, key, U1, W1, U2, W2, rT, r1);
      FoldRelaxedIsSat(S, key, U1, W1, U2, W2, rT, r2);
      FoldRelaxedIsSat(S, key, U1, W1, U2, W2, rT, r3);
    }
    HonestFoldExactly(S, key, U1, W1, U2, W2, rT, r1);
    HonestFoldExactly(S, key, U1, W1, U2, W2, rT, r2);
    HonestFoldExactly(S, key, U1, W1, U2, W2, rT, r3);
    if FoldSat(S, key, U1, W1, U2, W2, rT, r1) && FoldSat(S, key, U1, W1, U2, W2, rT, r2)
       && FoldSat(S, key, U1, W1, U2, W2, rT, r3) {
      LineIsO(GapW(key, U1, W1), GapW(key, U2, W2), r1, r2);
      SquaresDiffer(r1, r2, r3);
      if Mul(r1, r1) != Mul(r2, r2) {
        LineIsO(GapE(key, U1, W1), GapE(key, U2, W2), Mul(r1, r1), Mul(r2, r2));
      } else {
        LineIsO(GapE(key, U1, W1), GapE(key, U2, W2), Mul(r1, r1), Mul(r3, r3));
      }
      var (x, y) := if r1 == 1 then (r2, r3) else if r2 == 1 then (r1, r3) else (r1, r2);
      AlignedDefects(S, key, U1, W1, U2, W2, x, y);
      SatParts(S, key, U1, W1);
      SatParts(S, key, U2, W2);
    }
  }

  ghost predicate StrictFoldSat(S: Shape, key: Key, U1: RelaxedInstance, W1: RelaxedWitness,
                                U2: Instance, W2: Witness, rT: Fe, r: Fe)
    requires ShapeOk(S) && Fits(S, key, U1, W1) && FitsStrict(S, key, U2, W2)
  {
    var T := CrossTermStrict(S, U1, W1, U2, W2);
    IsSatRelaxed(S, key, FoldInstance(U1, U2, Commit(key, T, rT), r), FoldWitness(W1, W2, T, rT, r))
  }

  lemma StrictFoldSatIs(S: Shape, key: Key, U1: RelaxedInstance, W1: RelaxedWitness, U2: Instance, W2: Witness, rT: Fe, r: Fe)
    requires ShapeOk(S) && Fits(S, key, U1, W1) && FitsStrict(S, key, U2, W2)
    ensures StrictFoldSat(S, key, U1, W1, U2, W2, rT, r) <==> FoldSat(S, key, U1, W1, Relax(U2), RelaxWitness(S, W2), rT, r)
  {
    hide CrossTerm, CrossTermStrict, Commit, ShapeOk, IsSatRelaxed, Zeros,
      FoldInstance, FoldWitness, FoldInstanceRelaxed, FoldWitnessRelaxed;
    StrictCross(S, U1, W1, U2, W2);
    var T := CrossTermStrict(S, U1, W1, U2, W2);
    StrictFold(S, U1, W1, U2, W2, T, rT, Commit(key, T, rT), r);
  }

  /** ... and for a strict second pair. */
  lemma ThreeStrictFolds(S: Shape, key: Key, U1: RelaxedInstance, W1: RelaxedWitness,
                         U2: Instance, W2: Witness, rT: Fe, r1: Fe, r2: Fe, r3: Fe)
    requires ShapeOk(S) && Fits(S, key, U1, W1) && FitsStrict(S, key, U2, W2)
    requires r1 != r2 && r1 != r3 && r2 != r3
    ensures StrictFoldSat(S, key, U1, W1, U2, W2, rT, r1) && StrictFoldSat(S, key, U1, W1, U2, W2, rT, r2)
            && StrictFoldSat(S, key, U1, W1, U2, W2, rT, r3)
      <==> IsSatRelaxed(S, key, U1, W1) && IsSat(S, key, U2, W2)
  {
    hide FoldSat, StrictFoldSat, IsSatRelaxed, IsSat, ShapeOk, Zeros;
    RelaxedForm(S, key, U2, W2);
    StrictFoldSatIs(S, key, U1, W1, U2, W2, rT, r1);
    StrictFoldSatIs(S, key, U1, W1, U2, W2, rT, r2);
    StrictFoldSatIs(S, key, U1, W1, U2, W2, rT, r3);
    ThreeHonestFolds(S, key, U1, W1, Relax(U2), RelaxWitness(S, W2), rT, r1, r2, r3);
  }

  lemma AlignedDefects(S: Shape, key: Key, U1: RelaxedInstance, W1: RelaxedWitness,
                       U2: RelaxedInstance, W2: RelaxedWitness, x: Fe, y: Fe)
    requires ShapeOk(S) && Fits(S, key, U1, W1) && Fits(S, key, U2, W2)
    requires x != y && DefectsAlign(S, U1, W1, U2, W2, x) && DefectsAlign(S, U1, W1, U2, W2, y)
    ensures EquationHolds(S, W1.W, U1.u, U1.X, W1.E) && EquationHolds(S, W2.W, U2.u, U2.X, W2.E)
  {
    hide Mul, RowDefect, ShapeOk, EquationHolds, Z;
    forall i | 0 <= i < S.numCons
      ensures RowDefect(S, Z(W1.W, U1.u, U1.X), U1.u, W1.E, i) == 0
      ensures RowDefect(S, Z(W2.W, U2.u, U2.X), U2.u, W2.E, i) == 0
    {
      AlignedTwice(RowDefect(S, Z(W1.W, U1.u, U1.X), U1.u, W1.E, i), RowDefect(S, Z(W2.W, U2.u, U2.X), U2.u, W2.E, i), x, y);
    }
    EquationAsDefects(S, W1.W, U1.u, U1.X, W1.E);
    EquationAsDefects(S, W2.W, U2.u, U2.X, W2.E);
  }

  // ----------------------------------------------------- the non-interactive scheme

  datatype RoMsg = Digest(x: Fe) | AbsorbStrict(U: Instance) | AbsorbRelaxed(V: RelaxedInstance) | AbsorbComm(c: Pt)

  datatype Pair = Pair(U: RelaxedInstance, W: RelaxedWitness)

  /** What the prover is given at each step, with the blinding of the cross term. */
  datatype Step = Strict(U: Instance, W: Witness, rT: Fe) | Relaxed(V: RelaxedInstance, X: RelaxedWitness, rT: Fe)

  /** The part of a step the verifier sees. */
  datatype Public = PublicStrict(U: Instance) | PublicRelaxed(V: RelaxedInstance)

  function PublicOf(st: Step): Public {
    match st
    case Strict(U, _, _) => PublicStrict(U)
    case Relaxed(V, _, _) => PublicRelaxed(V)
  }

  predicate StepFits(S: Shape, key: Key, st: Step) {
    match st
    case Strict(U, W, _) => FitsStrict(S, key, U, W)
    case Relaxed(V, X, _) => Fits(S, key, V, X)
  }

  ghost predicate StepIsSat(S: Shape, key: Key, st: Step) {
    match st
    case Strict(U, W, _) => IsSat(S, key, U, W)
    case Relaxed(V, X, _) => IsSatRelaxed(S, key, V, X)
  }

  function Absorbed(pp: Fe, U1: RelaxedInstance, p: Public, commT: Pt): Log<RoMsg> {
    match p
    case PublicStrict(U) => [Said(Digest(pp)), Said(AbsorbStrict(U)), Said(AbsorbComm(commT))]
    case PublicRelaxed(V) => [Said(Digest(pp)), Said(AbsorbRelaxed(U1)), Said(AbsorbRelaxed(V)), Said(AbsorbComm(commT))]
  }

  function CommT(S: Shape, key: Key, p: Pair, st: Step): Pt
    requires ShapeOk(S) && Fits(S, key, p.U, p.W) && StepFits(S, key, st)
  {
    match st
    case Strict(U, W, rT) => Commit(key, CrossTermStrict(S, p.U, p.W, U, W), rT)
    case Relaxed(V, X, rT) => Commit(key, CrossTerm(S, p.U, p.W, V, X), rT)
  }

  function ProveStep(S: Shape, key: Key, f: Oracle<RoMsg>, pp: Fe, p: Pair, st: Step): (q: Pair)
    requires ShapeOk(S) && Fits(S, key, p.U, p.W) && StepFits(S, key, st)
    ensures Fits(S, key, q.U, q.W)
  {
    var commT := CommT(S, key, p, st);
    var r := f(Absorbed(pp, p.U, PublicOf(st), commT));
    match st
    case Strict(U, W, rT) =>
      Pair(FoldInstance(p.U, U, commT, r), FoldWitness(p.W, W, CrossTermStrict(S, p.U, p.W, U, W), rT, r))
    case Relaxed(V, X, rT) =>
      Pair(FoldInstanceRelaxed(p.U, V, commT, r), FoldWitnessRelaxed(p.W, X, CrossTerm(S, p.U, p.W, V, X), rT, r))
  }

  function VerifyStep(f: Oracle<RoMsg>, pp: Fe, U1: RelaxedInstance, p: Public, commT: Pt): (q: RelaxedInstance)
    requires match p case PublicStrict(U) => |U.X| == |U1.X| case PublicRelaxed(V) => |V.X| == |U1.X|
    ensures |q.X| == |U1.X|
  {
    var r := f(Absorbed(pp, U1, p, commT));
    match p
    case PublicStrict(U) => FoldInstance(U1, U, commT, r)
    case PublicRelaxed(V) => FoldInstanceRelaxed(U1, V, commT, r)
  }

  method Prove(key: Key, f: Oracle<RoMsg>, pp: Fe, S: Shape, p: Pair, U2: Instance, W2: Witness, rT: Fe)
    returns (commT: Pt, q: Pair)
    requires ShapeOk(S) && Fits(S, key, p.U, p.W) && FitsStrict(S, key, U2, W2)
    ensures commT == CommT(S, key, p, Strict(U2, W2, rT)) && q == ProveStep(S, key, f, pp, p, Strict(U2, W2, rT))
  {
    var ro := new Transcript(f);
    ro.Absorb(Digest(pp));
    ro.Absorb(AbsorbStrict(U2));
    var T := CrossTermStrict(S, p.U, p.W, U2, W2);
    commT := Commit(key, T, rT);
    ro.Absorb(AbsorbComm(commT));
    assert ro.log == Absorbed(pp, p.U, PublicStrict(U2), commT);
    var r := ro.Squeeze();
    q := Pair(FoldInstance(p.U, U2, commT, r), FoldWitness(p.W, W2, T, rT, r));
  }

  method Verify(commT: Pt, f: Oracle<RoMsg>, pp: Fe, U1: RelaxedInstance, U2: Instance) returns (U: RelaxedInstance)
    requires |U1.X| == |U2.X|
    ensures U == VerifyStep(f, pp, U1, PublicStrict(U2), commT)
  {
    var ro := new Transcript(f);
    ro.Absorb(Digest(pp));
    ro.Absorb(AbsorbStrict(U2));
    ro.Absorb(AbsorbComm(commT));
    assert ro.log == Absorbed(pp, U1, PublicStrict(U2), commT);
    var r := ro.Squeeze();
    U := FoldInstance(U1, U2, commT, r);
  }

  method ProveRelaxed(key: Key, f: Oracle<RoMsg>, vk: Fe, S: Shape, p: Pair, V: RelaxedInstance, X: RelaxedWitness, rT: Fe)
    returns (commT: Pt, q: Pair)
    requires ShapeOk(S) && Fits(S, key, p.U, p.W) && Fits(S, key, V, X)
    ensures commT == CommT(S, key, p, Relaxed(V, X, rT)) && q == ProveStep(S, key, f, vk, p, Relaxed(V, X, rT))
  {
    hide CrossTerm, Commit, FoldInstanceRelaxed, FoldWitnessRelaxed, ShapeOk;
    var ro := new Transcript(f);
    ro.Absorb(Digest(vk));
    ro.Absorb(AbsorbRelaxed(p.U));
    ro.Absorb(AbsorbRelaxed(V));
    var T := CrossTerm(S, p.U, p.W, V, X);
    commT := Commit(key, T, rT);
    ro.Absorb(AbsorbComm(commT));
    assert ro.log == Absorbed(vk, p.U, PublicRelaxed(V), commT);
    var r := ro.Squeeze();
    q := Pair(FoldInstanceRelaxed(p.U, V, commT, r), FoldWitnessRelaxed(p.W, X, T, rT, r));
  }

  method VerifyRelaxed(commT: Pt, f: Oracle<RoMsg>, pp: Fe, U1: RelaxedInstance, V: RelaxedInstance) returns (U: RelaxedInstance)
    requires |U1.X| == |V.X|
    ensures U == VerifyStep(f, pp, U1, PublicRelaxed(V), commT)
  {
    var ro := new Transcript(f);
    ro.Absorb(Digest(pp));
    ro.Absorb(AbsorbRelaxed(U1));
    ro.Absorb(AbsorbRelaxed(V));
    ro.Absorb(AbsorbComm(commT));
    assert ro.log == Absorbed(pp, U1, PublicRelaxed(V), commT);
    var r := ro.Squeeze();
    U := FoldInstanceRelaxed(U1, V, commT, r);
  }

  // ------------------------------------------------------------------ whole runs

  function Default(S: Shape): Pair {
    Pair(RelaxedInstance(O, O, Zeros(S.numIo), 0), RelaxedWitness(Zeros(S.numVars), 0, Zeros(S.numCons), 0))
  }

  function ProverRun(S: Shape, key: Key, f: Oracle<RoMsg>, pp: Fe, steps: seq<Step>): (p: Pair)
    requires ShapeOk(S) && S.numVars <= |key.ck| && S.numCons <= |key.ck|
    requires forall i :: 0 <= i < |steps| ==> StepFits(S, key, steps[i])
    ensures Fits(S, key, p.U, p.W)
  {
    if |steps| == 0 then Default(S)
    else ProveStep(S, key, f, pp, ProverRun(S, key, f, pp, steps[..|steps| - 1]), steps[|steps| - 1])
  }

  /** The commitments the prover sends along the run. */
  function Proofs(S: Shape, key: Key, f: Oracle<RoMsg>, pp: Fe, steps: seq<Step>): (cs: seq<Pt>)
    requires ShapeOk(S) && S.numVars <= |key.ck| && S.numCons <= |key.ck|
    requires forall i :: 0 <= i < |steps| ==> StepFits(S, key, steps[i])
    ensures |cs| == |steps|
  {
    if |steps| == 0 then []
    else
      var init := steps[..|steps| - 1];
      Proofs(S, key, f, pp, init) + [CommT(S, key, ProverRun(S, key, f, pp, init), steps[|steps| - 1])]
  }

  predicate PublicFits(S: Shape, p: Public) {
    match p case PublicStrict(U) => |U.X| == S.numIo case PublicRelaxed(V) => |V.X| == S.numIo
  }

  function VerifierRun(S: Shape, f: Oracle<RoMsg>, pp: Fe, publics: seq<Public>, proofs: seq<Pt>): (U: RelaxedInstance)
    requires |publics| == |proofs| && forall i :: 0 <= i < |publics| ==> PublicFits(S, publics[i])
    ensures |U.X| == S.numIo
  {
    if |publics| == 0 then Default(S).U
    else
      var n := |publics| - 1;
      assert PublicFits(S, publics[n]);
      VerifyStep(f, pp, VerifierRun(S, f, pp, publics[..n], proofs[..n]), publics[n], proofs[n])
  }

  lemma DefaultIsSat(S: Shape, key: Key)
    requires ShapeOk(S) && S.numVars <= |key.ck| && S.numCons <= |key.ck|
    ensures IsSatRelaxed(S, key, Default(S).U, Default(S).W)
  {
    hide MultiplyVec, Sparse.Valid, Commit, Mul, Add;
    CommitZeros(key, S.numVars);
    CommitZeros(key, S.numCons);
    var n := S.numVars + 1 + S.numIo;
    assert Z(Zeros(S.numVars), 0, Zeros(S.numIo)) == Zeros(n);
    MultiplyZeros(S.A);
    MultiplyZeros(S.B);
    MultiplyZeros(S.C);
    MulOne(0);
    AddZero(0);
  }

  lemma MultiplyZeros(m: SparseMatrix)
    requires Sparse.Valid(m)
    ensures MultiplyVec(m, Zeros(m.cols)) == Zeros(NumRows(m))
  {
    hide Mul, MultiplyVec;
    var z := Zeros(m.cols);
    forall i | 0 <= i < m.cols ensures VScale(0, z)[i] == z[i] { MulOne(0); }
    assert VScale(0, z) == z;
    MultiplyScale(m, 0, z);
    var y := MultiplyVec(m, z);
    forall i | 0 <= i < NumRows(m) ensures y[i] == 0 {
      MulOne(y[i]);
      assert y[i] == VScale(0, y)[i];
    }
  }

  /** From the default pair, every sequence of folds of satisfying strict or relaxed
      pairs, under every oracle, keeps the running pair satisfying. */
  lemma {:induction false} RunKeepsSat(S: Shape, key: Key, f: Oracle<RoMsg>, pp: Fe, steps: seq<Step>)
    requires ShapeOk(S) && S.numVars <= |key.ck| && S.numCons <= |key.ck|
    requires forall i :: 0 <= i < |steps| ==> StepFits(S, key, steps[i]) && StepIsSat(S, key, steps[i])
    ensures var p := ProverRun(S, key, f, pp, steps); IsSatRelaxed(S, key, p.U, p.W)
  {
    hide IsSatRelaxed, IsSat, FoldInstance, FoldWitness, FoldInstanceRelaxed, FoldWitnessRelaxed,
         ShapeOk, CrossTerm, CrossTermStrict, Commit;
    if |steps| == 0 {
      DefaultIsSat(S, key);
    } else {
      var n := |steps| - 1;
      RunKeepsSat(S, key, f, pp, steps[..n]);
      var p := ProverRun(S, key, f, pp, steps[..n]);
      var r := f(Absorbed(pp, p.U, PublicOf(steps[n]), CommT(S, key, p, steps[n])));
      assert StepIsSat(S, key, steps[n]);
      match steps[n] {
        case Strict(U, W, rT) => FoldIsSat(S, key, p.U, p.W, U, W, rT, r);
        case Relaxed(V, X, rT) => FoldRelaxedIsSat(S, key, p.U, p.W, V, X, rT, r);
      }
    }
  }

  /** The verifier, who sees only the public parts and the sent commitments, ends with
      the prover's instance. */
  lemma {:induction false} VerifierAgrees(S: Shape, key: Key, f: Oracle<RoMsg>, pp: Fe, steps: seq<Step>, publics: seq<Public>)
    requires ShapeOk(S) && S.numVars <= |key.ck| && S.numCons <= |key.ck|
    requires forall i :: 0 <= i < |steps| ==> StepFits(S, key, steps[i])
    requires |publics| == |steps| && forall i :: 0 <= i < |steps| ==> publics[i] == PublicOf(steps[i])
    ensures forall i :: 0 <= i < |publics| ==> PublicFits(S, publics[i])
    ensures VerifierRun(S, f, pp, publics, Proofs(S, key, f, pp, steps)) == ProverRun(S, key, f, pp, steps).U
  {
    hide FoldInstance, FoldWitness, FoldInstanceRelaxed, FoldWitnessRelaxed,
         ShapeOk, CrossTerm, CrossTermStrict, Commit, Absorbed;
    if |steps| > 0 {
      var n := |steps| - 1;
      VerifierAgrees(S, key, f, pp, steps[..n], publics[..n]);
      var proofs := Proofs(S, key, f, pp, steps);
      assert proofs[..n] == Proofs(S, key, f, pp, steps[..n]);
    }
  }
}
