/** R1CS shapes, the iterator that validates them, and the two satisfaction
    relations. */
module R1cs {
  import opened PrimeField
  import opened FieldLaws
  import opened PrimeGroup
  import opened Vectors
  import opened Pedersen
  import opened Sparse
  import opened Wrappers

  datatype Shape = Shape(numCons: nat, numVars: nat, numIo: nat, A: SparseMatrix, B: SparseMatrix, C: SparseMatrix)

  datatype Result<+T> = Ok(value: T) | InvalidIndex | InvalidWitnessLength | Unsat

  // ------------------------------------------------------------------- iterator

  /** Row r holds entry i. */
  predicate InRow(m: SparseMatrix, r: nat, i: nat) {
    r + 1 < |m.indptr| && m.indptr[r] <= i < m.indptr[r + 1]
  }

  lemma RowUnique(m: SparseMatrix, r: nat, r': nat, i: nat)
    requires Rows(m) && InRow(m, r, i) && InRow(m, r', i)
    ensures r == r'
  {
  }

  /** The row that holds entry i. */
  lemma RowOf(m: SparseMatrix, i: nat) returns (r: nat)
    requires Rows(m) && i < |m.data|
    ensures InRow(m, r, i)
  {
    r := 0;
    while m.indptr[r + 1] <= i
      invariant r + 1 < |m.indptr| && m.indptr[r] <= i
      decreases |m.indptr| - r
    {
      r := r + 1;
    }
  }

  /** Walks the entries in storage order and keeps track of the row. */
  class Iter {
    const m: SparseMatrix
    const nnz: nat
    var row: nat
    var i: nat

    ghost predicate Valid()
      reads this
    {
      && Rows(m) && nnz == |m.data| && i <= nnz
      && (i < nnz ==> InRow(m, row, i))
    }

    constructor (m: SparseMatrix)
      requires Rows(m)
      ensures Valid() && this.m == m && i == 0
    {
      var last := m.indptr[|m.indptr| - 1];
      var r: nat := 0;
      if last != 0 {
        while r + 1 < |m.indptr| && m.indptr[r + 1] == 0
          invariant r < |m.indptr| && m.indptr[r] == 0
          decreases |m.indptr| - r
        {
          r := r + 1;
        }
      }
      this.m := m;
      nnz := last;
      row := r;
      i := 0;
    }

    /** The next entry with its row, and nothing once all entries are out. */
    method Next() returns (item: Option<(nat, nat, Fe)>)
      requires Valid()
      modifies this
      ensures Valid()
      ensures old(i) == nnz ==> item == None && i == old(i)
      ensures old(i) < nnz ==>
        && i == old(i) + 1 && item.Some?
        && InRow(m, item.value.0, old(i)) && item.value.1 == m.indices[old(i)] && item.value.2 == m.data[old(i)]
    {
      if i == nnz {
        return None;
      }
      item := Some((row, m.indices[i], m.data[i]));
      i := i + 1;
      if i == nnz {
        return;
      }
      while i >= m.indptr[row + 1]
        invariant i == old(i) + 1 && row + 1 < |m.indptr| && m.indptr[row] <= i < nnz
        decreases |m.indptr| - row
      {
        row := row + 1;
      }
    }
  }

  // --------------------------------------------------------------- construction

  ghost predicate IndicesOk(m: SparseMatrix, numCons: nat, numVars: nat, numIo: nat)
    requires Rows(m)
  {
    forall r: nat, i: nat {:trigger InRow(m, r, i)} :: InRow(m, r, i) ==> r < numCons && m.indices[i] <= numIo + numVars
  }

  method IsValid(m: SparseMatrix, numCons: nat, numVars: nat, numIo: nat) returns (ok: bool)
    requires Rows(m)
    ensures ok <==> IndicesOk(m, numCons, numVars, numIo)
  {
    var it := new Iter(m);
    var item := it.Next();
    ghost var n := 0;
    while item.Some?
      invariant it.Valid() && it.m == m && n <= it.nnz
      invariant item.Some? ==> n < it.nnz && it.i == n + 1
      invariant item.Some? ==> InRow(m, item.value.0, n) && item.value.1 == m.indices[n]
      invariant item.None? ==> n == it.nnz
      invariant forall r: nat, i: nat {:trigger InRow(m, r, i)} :: i < n && InRow(m, r, i) ==> r < numCons && m.indices[i] <= numIo + numVars
      decreases it.nnz - n
    {
      var (row, col, val) := item.value;
      if row >= numCons || col > numIo + numVars {
        return false;
      }
      forall r: nat, i: nat | i < n + 1 && InRow(m, r, i)
        ensures r < numCons && m.indices[i] <= numIo + numVars
      {
        if i == n { RowUnique(m, r, row, n); }
      }
      n := n + 1;
      item := it.Next();
    }
    forall r: nat, i: nat | InRow(m, r, i)
      ensures i < n
    {
      assert m.indptr[r + 1] <= m.indptr[|m.indptr| - 1];
    }
    ok := true;
  }

  /** The shape is accepted exactly when every stored entry is in range. */
  method NewShape(numCons: nat, numVars: nat, numIo: nat, A: SparseMatrix, B: SparseMatrix, C: SparseMatrix)
    returns (o: Result<Shape>)
    requires Rows(A) && Rows(B) && Rows(C)
    ensures if IndicesOk(A, numCons, numVars, numIo) && IndicesOk(B, numCons, numVars, numIo) && IndicesOk(C, numCons, numVars, numIo)
      then o == Ok(Shape(numCons, numVars, numIo, A, B, C)) else o == InvalidIndex
  {
    var a := IsValid(A, numCons, numVars, numIo);
    if !a { return InvalidIndex; }
    var b := IsValid(B, numCons, numVars, numIo);
    if !b { return InvalidIndex; }
    var c := IsValid(C, numCons, numVars, numIo);
    if !c { return InvalidIndex; }
    o := Ok(Shape(numCons, numVars, numIo, A, B, C));
  }

  // --------------------------------------------------------------- satisfaction

  ghost predicate ShapeOk(S: Shape) {
    && Valid(S.A) && Valid(S.B) && Valid(S.C)
    && NumRows(S.A) == NumRows(S.B) == NumRows(S.C) == S.numCons
    && S.A.cols == S.B.cols == S.C.cols == S.numVars + 1 + S.numIo
  }

  function Z(W: Vec, u: Fe, X: Vec): (z: Vec)
    ensures |z| == |W| + 1 + |X|
  {
    W + [u] + X
  }

  /** a . b == u c + e in every row. */
  ghost predicate RowsHold(a: Vec, b: Vec, c: Vec, u: Fe, e: Vec)
    requires |a| == |b| == |c| == |e|
  {
    forall i :: 0 <= i < |a| ==> Mul(a[i], b[i]) == Add(Mul(u, c[i]), e[i])
  }

  ghost predicate EquationHolds(S: Shape, W: Vec, u: Fe, X: Vec, E: Vec)
    requires ShapeOk(S) && |W| == S.numVars && |X| == S.numIo && |E| == S.numCons
  {
    var z := Z(W, u, X);
    RowsHold(MultiplyVec(S.A, z), MultiplyVec(S.B, z), MultiplyVec(S.C, z), u, E)
  }

  datatype Witness = Witness(W: Vec, rW: Fe)
  datatype Instance = Instance(commW: Pt, X: Vec)
  datatype RelaxedWitness = RelaxedWitness(W: Vec, rW: Fe, E: Vec, rE: Fe)
  datatype RelaxedInstance = RelaxedInstance(commW: Pt, commE: Pt, X: Vec, u: Fe)

  predicate FitsStrict(S: Shape, key: Key, U: Instance, W: Witness) {
    |W.W| == S.numVars && |U.X| == S.numIo && |W.W| <= |key.ck|
  }

  predicate Fits(S: Shape, key: Key, U: RelaxedInstance, W: RelaxedWitness) {
    && |W.W| == S.numVars && |W.E| == S.numCons && |U.X| == S.numIo
    && |W.W| <= |key.ck| && |W.E| <= |key.ck|
  }

  ghost predicate IsSatRelaxed(S: Shape, key: Key, U: RelaxedInstance, W: RelaxedWitness) {
    && ShapeOk(S) && Fits(S, key, U, W)
    && EquationHolds(S, W.W, U.u, U.X, W.E)
    && U.commW == Commit(key, W.W, W.rW) && U.commE == Commit(key, W.E, W.rE)
  }

  ghost predicate IsSat(S: Shape, key: Key, U: Instance, W: Witness) {
    && ShapeOk(S) && FitsStrict(S, key, U, W)
    && var z := Z(W.W, 1, U.X);
    var (a, b, c) := (MultiplyVec(S.A, z), MultiplyVec(S.B, z), MultiplyVec(S.C, z));
    && (forall i :: 0 <= i < S.numCons ==> Mul(a[i], b[i]) == c[i])
    && U.commW == Commit(key, W.W, W.rW)
  }

  /** A strict pair is a relaxed pair with u = 1 and no error. */
  function Relax(U: Instance): RelaxedInstance {
    RelaxedInstance(U.commW, O, U.X, 1)
  }

  function RelaxWitness(S: Shape, W: Witness): RelaxedWitness {
    RelaxedWitness(W.W, W.rW, Zeros(S.numCons), 0)
  }

  lemma RelaxedForm(S: Shape, key: Key, U: Instance, W: Witness)
    requires S.numCons <= |key.ck|
    ensures IsSat(S, key, U, W) <==> IsSatRelaxed(S, key, Relax(U), RelaxWitness(S, W))
  {
    hide Add, Mul, MultiplyVec, Commit, Valid;
    CommitZeros(key, S.numCons);
    if ShapeOk(S) && FitsStrict(S, key, U, W) {
      var z := Z(W.W, 1, U.X);
      var (a, b, c) := (MultiplyVec(S.A, z), MultiplyVec(S.B, z), MultiplyVec(S.C, z));
      forall i | 0 <= i < S.numCons
        ensures Add(Mul(1, c[i]), Zeros(S.numCons)[i]) == c[i]
      {
        MulOne(c[i]);
        AddZero(c[i]);
      }
      if RowsHold(a, b, c, 1, Zeros(S.numCons)) {
        forall i | 0 <= i < S.numCons ensures Mul(a[i], b[i]) == c[i] { assert Mul(a[i], b[i]) == Add(Mul(1, c[i]), Zeros(S.numCons)[i]); }
      }
    }
  }
}
