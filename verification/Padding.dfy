/** Padding a shape and its witness to powers of two, and what padding preserves. */
module Padding {
  import opened PrimeField
  import opened FieldLaws
  import opened PrimeGroup
  import opened Vectors
  import opened Pedersen
  import opened Sparse
  import opened R1cs
  import opened PowersOfTwo
  import opened Wrappers

  predicate Regular(S: Shape) {
    NextPowerOfTwo(S.numCons) == S.numCons && NextPowerOfTwo(S.numVars) == S.numVars && S.numIo < S.numVars
  }

  // -------------------------------------------------------------- one matrix

  /** Where column c goes when d variables are inserted after the first `vars`. */
  function Moved(c: nat, vars: nat, d: nat): nat {
    if c >= vars then c + d else c
  }

  function MovedAll(cs: seq<nat>, vars: nat, d: nat): (ds: seq<nat>)
    ensures |ds| == |cs|
  {
    seq(|cs|, i requires 0 <= i < |cs| => Moved(cs[i], vars, d))
  }

  /** d more variables and `extra` more empty rows. */
  function PadMatrix(m: SparseMatrix, vars: nat, d: nat, extra: nat): SparseMatrix
    requires |m.indptr| >= 1
  {
    var nnz := m.indptr[|m.indptr| - 1];
    SparseMatrix(m.data, MovedAll(m.indices, vars, d), m.indptr + seq(extra, _ => nnz), m.cols + d)
  }

  /** Renumbers the columns in place and extends the row pointers. */
  method ApplyPad(m: SparseMatrix, vars: nat, varsPadded: nat, cons: nat, consPadded: nat) returns (p: SparseMatrix)
    requires Rows(m) && vars <= varsPadded && cons <= consPadded
    ensures p == PadMatrix(m, vars, varsPadded - vars, consPadded - cons)
  {
    var indices, indptr, cols := m.indices, m.indptr, m.cols;
    if varsPadded > vars {
      for i := 0 to |indices|
        invariant |indices| == |m.indices|
        invariant forall k :: 0 <= k < i ==> indices[k] == Moved(m.indices[k], vars, varsPadded - vars)
        invariant forall k :: i <= k < |indices| ==> indices[k] == m.indices[k]
      {
        if indices[i] >= vars {
          indices := indices[i := indices[i] + (varsPadded - vars)];
        }
      }
      cols := cols + (varsPadded - vars);
    }
    if consPadded > cons {
      var nnz := indptr[|indptr| - 1];
      indptr := indptr + seq(consPadded - cons, _ => nnz);
    }
    p := SparseMatrix(m.data, indices, indptr, cols);
  }

  function MovedEntries(es: Entries, vars: nat, d: nat): (fs: Entries)
    ensures |fs| == |es|
  {
    seq(|es|, i requires 0 <= i < |es| => (es[i].0, Moved(es[i].1, vars, d)))
  }

  lemma PadMatrixRows(m: SparseMatrix, vars: nat, d: nat, extra: nat)
    requires Valid(m)
    ensures var p := PadMatrix(m, vars, d, extra);
      Valid(p) && NumRows(p) == NumRows(m) + extra
  {
  }

  lemma PadMatrixRow(m: SparseMatrix, vars: nat, d: nat, extra: nat, r: nat)
    requires Valid(m) && Valid(PadMatrix(m, vars, d, extra)) && r < NumRows(m)
    ensures Row(PadMatrix(m, vars, d, extra), r) == MovedEntries(Row(m, r), vars, d)
  {
    assert m.indptr[r + 1] <= m.indptr[|m.indptr| - 1];
  }

  lemma PadMatrixNewRow(m: SparseMatrix, vars: nat, d: nat, extra: nat, r: nat)
    requires Valid(m) && Valid(PadMatrix(m, vars, d, extra)) && NumRows(m) <= r < NumRows(m) + extra
    ensures Row(PadMatrix(m, vars, d, extra), r) == []
  {
  }

  lemma MovedLookup(W: Vec, u: Fe, X: Vec, d: nat, c: nat)
    requires c < |W| + 1 + |X|
    ensures Moved(c, |W|, d) < |W| + d + 1 + |X|
    ensures Z(W + Zeros(d), u, X)[Moved(c, |W|, d)] == Z(W, u, X)[c]
  {
  }

  lemma {:induction false} EvalMoved(es: Entries, W: Vec, u: Fe, X: Vec, d: nat)
    requires InRange(es, |W| + 1 + |X|)
    ensures InRange(MovedEntries(es, |W|, d), |W| + d + 1 + |X|)
    ensures Eval(MovedEntries(es, |W|, d), Z(W + Zeros(d), u, X)) == Eval(es, Z(W, u, X))
  {
    hide Add, Mul, Z, Moved, Zeros;
    if |es| > 0 {
      var last := |es| - 1;
      assert MovedEntries(es, |W|, d)[..last] == MovedEntries(es[..last], |W|, d);
      EvalMoved(es[..last], W, u, X, d);
      MovedLookup(W, u, X, d, es[last].1);
    }
  }

  /** The padded matrix times the padded vector is the product, followed by zeros. */
  lemma PadMatrixProduct(m: SparseMatrix, W: Vec, u: Fe, X: Vec, d: nat, extra: nat)
    requires Valid(m) && m.cols == |W| + 1 + |X|
    ensures var p := PadMatrix(m, |W|, d, extra);
      && Valid(p) && NumRows(p) == NumRows(m) + extra && p.cols == |W| + d + 1 + |X|
      && MultiplyVec(p, Z(W + Zeros(d), u, X)) == MultiplyVec(m, Z(W, u, X)) + Zeros(extra)
  {
    hide Eval, Row, Z, Valid, Zeros, MovedEntries;
    PadMatrixRows(m, |W|, d, extra);
    var p := PadMatrix(m, |W|, d, extra);
    var (x, y) := (MultiplyVec(p, Z(W + Zeros(d), u, X)), MultiplyVec(m, Z(W, u, X)) + Zeros(extra));
    forall r | 0 <= r < |x| ensures x[r] == y[r] { PadMatrixProductAt(m, W, u, X, d, extra, r); }
  }

  lemma PadMatrixProductAt(m: SparseMatrix, W: Vec, u: Fe, X: Vec, d: nat, extra: nat, r: nat)
    requires Valid(m) && m.cols == |W| + 1 + |X| && r < NumRows(m) + extra
    requires Valid(PadMatrix(m, |W|, d, extra)) && NumRows(PadMatrix(m, |W|, d, extra)) == NumRows(m) + extra
    ensures MultiplyVec(PadMatrix(m, |W|, d, extra), Z(W + Zeros(d), u, X))[r]
      == (MultiplyVec(m, Z(W, u, X)) + Zeros(extra))[r]
  {
    hide Row, Z, MovedEntries, InRange, PadMatrix;
    if r < NumRows(m) {
      RowInRange(m, r);
      PadMatrixRow(m, |W|, d, extra, r);
      EvalMoved(Row(m, r), W, u, X, d);
    } else {
      PadMatrixNewRow(m, |W|, d, extra, r);
    }
  }

  // --------------------------------------------------------- shape and witness

  function PadShape(S: Shape, vars: nat, cons: nat): Shape
    requires ShapeOk(S) && S.numVars <= vars && S.numCons <= cons
  {
    var (d, extra) := (vars - S.numVars, cons - S.numCons);
    Shape(cons, vars, S.numIo, PadMatrix(S.A, S.numVars, d, extra), PadMatrix(S.B, S.numVars, d, extra),
          PadMatrix(S.C, S.numVars, d, extra))
  }

  lemma PadShapeOk(S: Shape, vars: nat, cons: nat)
    requires ShapeOk(S) && S.numVars <= vars && S.numCons <= cons
    ensures ShapeOk(PadShape(S, vars, cons))
  {
    hide Valid;
    var (d, extra) := (vars - S.numVars, cons - S.numCons);
    PadMatrixRows(S.A, S.numVars, d, extra);
    PadMatrixRows(S.B, S.numVars, d, extra);
    PadMatrixRows(S.C, S.numVars, d, extra);
  }

  lemma PadNothing(S: Shape)
    requires ShapeOk(S)
    ensures PadShape(S, S.numVars, S.numCons) == S
  {
    forall m: SparseMatrix | Rows(m) ensures PadMatrix(m, S.numVars, 0, 0) == m {
      assert MovedAll(m.indices, S.numVars, 0) == m.indices;
    }
  }

  function PadWitness(W: RelaxedWitness, vars: nat, cons: nat): RelaxedWitness
    requires |W.W| <= vars && |W.E| <= cons
  {
    W.(W := W.W + Zeros(vars - |W.W|), E := W.E + Zeros(cons - |W.E|))
  }

  lemma RowsHoldPadded(a: Vec, b: Vec, c: Vec, u: Fe, e: Vec, n: nat)
    requires |a| == |b| == |c| == |e|
    ensures RowsHold(a + Zeros(n), b + Zeros(n), c + Zeros(n), u, e + Zeros(n)) <==> RowsHold(a, b, c, u, e)
  {
    hide Add, Mul;
    var (a', b', c', e') := (a + Zeros(n), b + Zeros(n), c + Zeros(n), e + Zeros(n));
    MulOne(u);
    MulOne(0);
    AddZero(0);
    if RowsHold(a', b', c', u, e') {
      forall i | 0 <= i < |a| ensures Mul(a[i], b[i]) == Add(Mul(u, c[i]), e[i]) {
        assert Mul(a'[i], b'[i]) == Add(Mul(u, c'[i]), e'[i]);
      }
    }
  }

  /** Padding neither adds nor removes solutions. */
  lemma PadKeepsEquation(S: Shape, vars: nat, cons: nat, W: Vec, u: Fe, X: Vec, E: Vec)
    requires ShapeOk(S) && S.numVars <= vars && S.numCons <= cons
    requires |W| == S.numVars && |X| == S.numIo && |E| == S.numCons
    ensures ShapeOk(PadShape(S, vars, cons))
    ensures EquationHolds(PadShape(S, vars, cons), W + Zeros(vars - |W|), u, X, E + Zeros(cons - |E|))
      <==> EquationHolds(S, W, u, X, E)
  {
    hide MultiplyVec, Valid, RowsHold, PadMatrix;
    PadShapeOk(S, vars, cons);
    var (d, extra, z) := (vars - |W|, cons - |E|, Z(W, u, X));
    PadMatrixProduct(S.A, W, u, X, d, extra);
    PadMatrixProduct(S.B, W, u, X, d, extra);
    PadMatrixProduct(S.C, W, u, X, d, extra);
    RowsHoldPadded(MultiplyVec(S.A, z), MultiplyVec(S.B, z), MultiplyVec(S.C, z), u, E, extra);
  }

  lemma CommitPadded(key: Key, v: Vec, r: Fe, n: nat)
    requires |v| + n <= |key.ck|
    ensures Commit(key, v + Zeros(n), r) == Commit(key, v, r)
  {
    hide Msm, Plus, Smul;
    var (g, h) := (key.ck[..|v|], key.ck[|v|..|v| + n]);
    assert key.ck[..|v| + n] == g + h;
    MsmConcat(v, Zeros(n), g, h);
    MsmZeros(n, h);
    PlusO(Msm(v, g));
  }

  /** A padded pair satisfies the padded shape exactly when the pair satisfies the shape. */
  lemma PadKeepsSat(S: Shape, vars: nat, cons: nat, key: Key, U: RelaxedInstance, W: RelaxedWitness)
    requires ShapeOk(S) && S.numVars <= vars <= |key.ck| && S.numCons <= cons <= |key.ck|
    requires |W.W| == S.numVars && |W.E| == S.numCons
    ensures IsSatRelaxed(PadShape(S, vars, cons), key, U, PadWitness(W, vars, cons)) <==> IsSatRelaxed(S, key, U, W)
  {
    hide EquationHolds, ShapeOk, Commit, Zeros, PadMatrix;
    PadShapeOk(S, vars, cons);
    CommitPadded(key, W.W, W.rW, vars - |W.W|);
    CommitPadded(key, W.E, W.rE, cons - |W.E|);
    if |U.X| == S.numIo { PadKeepsEquation(S, vars, cons, W.W, U.u, U.X, W.E); }
  }

  // ------------------------------------------------------------- the two paddings

  /** The outcome of `pad_nonsquare`. */
  function Nonsquare(S: Shape): Shape
    requires ShapeOk(S)
  {
    if Regular(S) then S
    else
      AtLeast(Max(S.numVars, S.numIo + 1));
      AtLeast(S.numCons);
      PadShape(S, NextPowerOfTwo(Max(S.numVars, S.numIo + 1)), NextPowerOfTwo(S.numCons))
  }

  lemma AtLeast(n: nat)
    ensures NextPowerOfTwo(n) >= n
  {
    NextPowerOfTwoIsLeast(n, 0);
  }

  method PadNonsquare(S: Shape) returns (P: Shape)
    requires ShapeOk(S)
    ensures P == Nonsquare(S)
  {
    hide Valid, NextPowerOfTwo, PadMatrix;
    if Regular(S) {
      return S;
    }
    AtLeast(Max(S.numVars, S.numIo + 1));
    AtLeast(S.numCons);
    var vars, cons := NextPowerOfTwo(Max(S.numVars, S.numIo + 1)), NextPowerOfTwo(S.numCons);
    P := PadWith(S, vars, cons);
  }

  method PadWith(S: Shape, vars: nat, cons: nat) returns (P: Shape)
    requires ShapeOk(S) && S.numVars <= vars && S.numCons <= cons
    ensures P == PadShape(S, vars, cons)
  {
    hide PadMatrix;
    var A := ApplyPad(S.A, S.numVars, vars, S.numCons, cons);
    var B := ApplyPad(S.B, S.numVars, vars, S.numCons, cons);
    var C := ApplyPad(S.C, S.numVars, vars, S.numCons, cons);
    P := Shape(cons, vars, S.numIo, A, B, C);
  }

  /** The result is regular, is a padding of S, and is the smallest such. */
  lemma NonsquareMeaning(S: Shape, vars: nat, cons: nat)
    requires ShapeOk(S)
    ensures var P := Nonsquare(S);
      && ShapeOk(P) && Regular(P)
      && S.numVars <= P.numVars && S.numCons <= P.numCons && P == PadShape(S, P.numVars, P.numCons)
      && (NextPowerOfTwo(vars) == vars && vars > S.numIo && vars >= S.numVars ==> P.numVars <= vars)
      && (NextPowerOfTwo(cons) == cons && cons >= S.numCons ==> P.numCons <= cons)
  {
    hide PadMatrix, Valid, NextPowerOfTwo, Rows;
    if Regular(S) {
      PadNothing(S);
    } else {
      var n := Max(S.numVars, S.numIo + 1);
      AtLeast(n);
      AtLeast(S.numCons);
      NextPowerOfTwoTwice(n);
      NextPowerOfTwoTwice(S.numCons);
      PadShapeOk(S, NextPowerOfTwo(n), NextPowerOfTwo(S.numCons));
      NextMono(n, vars);
      NextMono(S.numCons, cons);
    }
  }

  lemma NextMono(n: nat, v: nat)
    ensures NextPowerOfTwo(v) == v && v >= n ==> NextPowerOfTwo(n) <= v
  {
    NextPowerOfTwoIsLeast(v, 0);
    if NextPowerOfTwo(v) == v {
      var j: nat :| NextPowerOfTwo(v) == Pow2(j);
      NextPowerOfTwoIsLeast(n, j);
    }
  }

  /** The side `pad` aims for. */
  function Side(S: Shape): (m: nat)
    ensures m >= S.numVars && m >= S.numCons && m >= S.numIo
  {
    var n := Max(Max(S.numVars, S.numCons), S.numIo);
    AtLeast(n);
    NextPowerOfTwo(n)
  }

  /** The outcome of `pad`. */
  function Square(S: Shape): Shape
    requires ShapeOk(S)
  {
    if Regular(S) then S
    else if S.numVars == Side(S) then S.(numCons := Side(S))
    else PadShape(S, Side(S), Side(S))
  }

  method Pad(S: Shape) returns (P: Shape)
    requires ShapeOk(S)
    ensures P == Square(S)
  {
    hide Valid, NextPowerOfTwo, PadMatrix;
    if Regular(S) {
      return S;
    }
    var m := Side(S);
    if S.numVars == m {
      return Shape(m, m, S.numIo, S.A, S.B, S.C);
    }
    P := PadWith(S, m, m);
  }

  /** The matrices of the result have numCons rows exactly when the branch that leaves
      them alone has nothing to add; only then is the result a padding of S. */
  lemma SquareOkExactly(S: Shape)
    requires ShapeOk(S)
    ensures ShapeOk(Square(S)) <==> Regular(S) || S.numVars < Side(S) || S.numCons == Side(S)
    ensures ShapeOk(Square(S)) ==> var P := Square(S);
      S.numVars <= P.numVars && S.numCons <= P.numCons && P == PadShape(S, P.numVars, P.numCons)
  {
    hide PadMatrix, Valid, NextPowerOfTwo, Side, Rows;
    PadNothing(S);
    if !Regular(S) && S.numVars < Side(S) { PadShapeOk(S, Side(S), Side(S)); }
  }

  /** The result is a usable regular shape exactly when S was one already or both its
      variables and its inputs fit strictly below the side. */
  lemma SquareRegularExactly(S: Shape)
    requires ShapeOk(S)
    ensures ShapeOk(Square(S)) && Regular(Square(S))
      <==> Regular(S) || (S.numVars < Side(S) && S.numIo < Side(S))
  {
    hide PadMatrix, Valid, NextPowerOfTwo, Rows, ShapeOk;
    SquareOkExactly(S);
    NextPowerOfTwoTwice(Max(Max(S.numVars, S.numCons), S.numIo));
  }

  /** Three constraints over four variables: one row is missing afterwards. */
  lemma SquareMissesARow()
    ensures var m := SparseMatrix([], [], [0, 0, 0, 0], 5); var S := Shape(3, 4, 0, m, m, m);
      ShapeOk(S) && Square(S).numCons == 4 && NumRows(Square(S).A) == 3 && !ShapeOk(Square(S))
  {
    assert NextPowerOfTwo(4) == 4 && NextPowerOfTwo(3) == 4;
  }

  /** One constraint, one variable, one input: a usable result, but not a regular one. */
  lemma SquareKeepsTooManyInputs()
    ensures var m := SparseMatrix([], [], [0, 0], 3); var S := Shape(1, 1, 1, m, m, m);
      ShapeOk(S) && ShapeOk(Square(S)) && !Regular(Square(S))
  {
    assert NextPowerOfTwo(1) == 1;
  }
}
