/** The constraint compiler: a recording constraint system and its translation to
    an R1CS shape in compressed sparse rows. */
module Frontend {
  import opened PrimeField
  import opened FieldLaws
  import opened Vectors
  import opened Sparse
  import opened R1cs
  import opened LinComb

  datatype Constraint = Constraint(a: LC, b: LC, c: LC)

  // ------------------------------------------------------------- one CSR row

  /** The nonzero terms, shifted to their columns. */
  function Shifted(t: Terms, offset: nat): Entries {
    if |t| == 0 then []
    else
      var init := Shifted(t[..|t| - 1], offset);
      var (key, x) := t[|t| - 1];
      if x != 0 then init + [(x, key + offset)] else init
  }

  /** Inputs come first in storage and last in the columns. */
  function RowEntries(lc: LC, numVars: nat): Entries {
    Shifted(lc.inputs, numVars) + Shifted(lc.aux, 0)
  }

  lemma NoTerms(t: Terms, v: Vec)
    requires |t| == 0
    ensures EvalTerms(t, v) == 0
  {
  }

  lemma EntriesSnoc(es: Entries, e: (Fe, nat), z: Vec)
    requires InRange(es, |z|) && e.1 < |z|
    ensures InRange(es + [e], |z|) && Sparse.Eval(es + [e], z) == Add(Sparse.Eval(es, z), Mul(e.0, z[e.1]))
  {
    hide Add, Mul;
    assert (es + [e])[..|es|] == es;
  }

  lemma {:induction false} EvalShifted(t: Terms, offset: nat, v: Vec, z: Vec)
    requires Below(t, |v|) && offset + |v| <= |z| && z[offset..offset + |v|] == v
    ensures InRange(Shifted(t, offset), |z|)
    ensures Sparse.Eval(Shifted(t, offset), z) == EvalTerms(t, v)
  {
    hide Add, Mul, EvalTerms, Sparse.Eval, InRange;
    if |t| == 0 {
      NoTerms(t, v);
      NoEntries(z);
    } else {
      var last := |t| - 1;
      var (key, x) := t[last];
      EvalShifted(t[..last], offset, v, z);
      EvalTermsSnoc(t, last, v);
      assert t[..last + 1] == t;
      assert z[key + offset] == z[offset..offset + |v|][key];
      if x == 0 {
        MulOne(v[key]);
        AddZero(EvalTerms(t[..last], v));
      } else {
        EntriesSnoc(Shifted(t[..last], offset), (x, key + offset), z);
      }
    }
  }

  lemma NoEntries(z: Vec)
    ensures InRange([], |z|) && Sparse.Eval([], z) == 0
  {
  }

  lemma {:induction false} EvalConcat(es: Entries, fs: Entries, z: Vec)
    requires InRange(es, |z|) && InRange(fs, |z|)
    ensures InRange(es + fs, |z|)
    ensures Sparse.Eval(es + fs, z) == Add(Sparse.Eval(es, z), Sparse.Eval(fs, z))
  {
    hide Add, Mul;
    if |fs| == 0 {
      assert es + fs == es;
      AddZero(Sparse.Eval(es, z));
    } else {
      var init := fs[..|fs| - 1];
      assert (es + fs)[..|es + fs| - 1] == es + init;
      EvalConcat(es, init, z);
      AddAssoc(Sparse.Eval(es, z), Sparse.Eval(init, z), Mul(fs[|fs| - 1].0, z[fs[|fs| - 1].1]));
    }
  }

  /** The compiled row times z = aux ++ inputs is the value of the linear combination. */
  lemma RowMeaning(lc: LC, inputs: Vec, aux: Vec)
    requires Allocated(lc, |inputs|, |aux|)
    ensures InRange(RowEntries(lc, |aux|), |aux + inputs|)
    ensures Sparse.Eval(RowEntries(lc, |aux|), aux + inputs) == EvalLC(lc, inputs, aux)
  {
    hide Add;
    var z := aux + inputs;
    assert z[|aux|..|aux| + |inputs|] == inputs && z[0..0 + |aux|] == aux;
    EvalShifted(lc.inputs, |aux|, inputs, z);
    EvalShifted(lc.aux, 0, aux, z);
    EvalConcat(Shifted(lc.inputs, |aux|), Shifted(lc.aux, 0), z);
  }

  // ------------------------------------------------------------ appending rows

  class MatrixBuffer {
    var data: seq<Fe>
    var indices: seq<nat>
    var indptr: seq<nat>
    var cols: nat

    function Value(): SparseMatrix
      reads this
    {
      SparseMatrix(data, indices, indptr, cols)
    }

    constructor Empty()
      ensures Value() == EMPTY
    {
      data, indices, indptr, cols := [], [], [0], 0;
    }

    method AddComponents(t: Terms, offset: nat)
      requires |data| == |indices|
      modifies this`data, this`indices
      ensures |data| == |indices|
      ensures data == old(data) + Values(Shifted(t, offset)) && indices == old(indices) + Columns(Shifted(t, offset))
    {
      for i := 0 to |t|
        invariant |data| == |indices|
        invariant data == old(data) + Values(Shifted(t[..i], offset))
        invariant indices == old(indices) + Columns(Shifted(t[..i], offset))
      {
        assert t[..i + 1][..i] == t[..i];
        var (key, coeff) := t[i];
        if coeff != 0 {
          ghost var es := Shifted(t[..i], offset);
          assert Values(es + [(coeff, key + offset)]) == Values(es) + [coeff];
          assert Columns(es + [(coeff, key + offset)]) == Columns(es) + [key + offset];
          data := data + [coeff];
          indices := indices + [key + offset];
        }
      }
      assert t[..|t|] == t;
    }

    /** Appends the row of a linear combination. */
    method AddRow(lc: LC, numVars: nat)
      requires Rows(Value())
      modifies this
      ensures Value() == AppendRow(old(Value()), RowEntries(lc, numVars))
    {
      hide Shifted, Values, Columns;
      AddComponents(lc.inputs, numVars);
      AddComponents(lc.aux, 0);
      EntriesConcat(Shifted(lc.inputs, numVars), Shifted(lc.aux, 0));
      indptr := indptr + [|indices|];
    }
  }

  // ------------------------------------------------------- constraint systems

  ghost predicate ConstraintAllocated(k: Constraint, numInputs: nat, numAux: nat) {
    Allocated(k.a, numInputs, numAux) && Allocated(k.b, numInputs, numAux) && Allocated(k.c, numInputs, numAux)
  }

  ghost predicate AllAllocated(ks: seq<Constraint>, numInputs: nat, numAux: nat) {
    forall r :: 0 <= r < |ks| ==> ConstraintAllocated(ks[r], numInputs, numAux)
  }

  /** One component of every constraint. */
  datatype Side = A | B | C

  function Component(k: Constraint, s: Side): LC {
    match s case A => k.a case B => k.b case C => k.c
  }

  /** m holds the rows of that side of all constraints, and nothing else. */
  ghost predicate Compiled(m: SparseMatrix, ks: seq<Constraint>, s: Side, numVars: nat) {
    && Rows(m) && NumRows(m) == |ks|
    && forall r :: 0 <= r < |ks| ==> Row(m, r) == RowEntries(Component(ks[r], s), numVars)
  }

  lemma CompiledStep(m: SparseMatrix, ks: seq<Constraint>, s: Side, numVars: nat, k: Constraint)
    requires Compiled(m, ks, s, numVars)
    ensures Compiled(AppendRow(m, RowEntries(Component(k, s), numVars)), ks + [k], s, numVars)
  {
    hide Row, RowEntries, Component;
    AppendRowRows(m, RowEntries(Component(k, s), numVars));
  }

  /** Every compiled entry is in range, so the shape is accepted. */
  lemma CompiledInRange(m: SparseMatrix, ks: seq<Constraint>, s: Side, numInputs: nat, numVars: nat)
    requires Compiled(m, ks, s, numVars) && numInputs >= 1
    requires AllAllocated(ks, numInputs, numVars)
    ensures IndicesOk(m, |ks|, numVars, numInputs - 1)
    ensures forall i :: 0 <= i < |m.indices| ==> m.indices[i] < numVars + numInputs
  {
    hide Row, RowEntries, Sorted, Below;
    forall i: nat | i < |m.indices| ensures m.indices[i] < numVars + numInputs {
      var r := RowOf(m, i);
      CompiledEntry(m, ks, s, numInputs, numVars, r, i);
    }
    forall r: nat, i: nat | InRow(m, r, i) ensures r < |ks| && m.indices[i] <= numInputs - 1 + numVars {
      CompiledEntry(m, ks, s, numInputs, numVars, r, i);
    }
  }

  lemma CompiledEntry(m: SparseMatrix, ks: seq<Constraint>, s: Side, numInputs: nat, numVars: nat, r: nat, i: nat)
    requires Compiled(m, ks, s, numVars) && InRow(m, r, i)
    requires AllAllocated(ks, numInputs, numVars)
    ensures r < |ks| && i < |m.indices| && m.indices[i] < numVars + numInputs
  {
    hide RowEntries;
    assert ConstraintAllocated(ks[r], numInputs, numVars);
    assert m.indptr[r + 1] <= m.indptr[|m.indptr| - 1];
    assert Row(m, r)[i - m.indptr[r]].1 == m.indices[i];
    RowEntriesBelow(Component(ks[r], s), numInputs, numVars);
  }

  lemma RowEntriesBelow(lc: LC, numInputs: nat, numVars: nat)
    requires Allocated(lc, numInputs, numVars)
    ensures InRange(RowEntries(lc, numVars), numVars + numInputs)
  {
    ShiftedBelow(lc.inputs, numVars, numInputs);
    ShiftedBelow(lc.aux, 0, numVars);
  }

  lemma {:induction false} ShiftedBelow(t: Terms, offset: nat, n: nat)
    requires Below(t, n)
    ensures InRange(Shifted(t, offset), offset + n)
  {
    if |t| > 0 { ShiftedBelow(t[..|t| - 1], offset, n); }
  }

  class ShapeCS {
    var constraints: seq<Constraint>
    var inputs: nat
    var aux: nat

    /** Constraints use allocated variables only, and input 0 is the constant one. */
    ghost predicate Valid()
      reads this
    {
      inputs >= 1 && AllAllocated(constraints, inputs, aux)
    }

    constructor ()
      ensures Valid() && constraints == [] && inputs == 1 && aux == 0
    {
      constraints, inputs, aux := [], 1, 0;
    }

    method Alloc() returns (x: Variable)
      requires Valid()
      modifies this`aux
      ensures Valid() && aux == old(aux) + 1
      ensures x == Aux(old(aux)) && InScope(x, inputs, aux) && !InScope(x, inputs, old(aux))
    {
      aux := aux + 1;
      x := Aux(aux - 1);
    }

    method AllocInput() returns (x: Variable)
      requires Valid()
      modifies this`inputs
      ensures Valid() && inputs == old(inputs) + 1
      ensures x == Input(old(inputs)) && InScope(x, inputs, aux) && !InScope(x, old(inputs), aux)
    {
      inputs := inputs + 1;
      x := Input(inputs - 1);
    }

    method Enforce(a: LC, b: LC, c: LC)
      requires Valid() && ConstraintAllocated(Constraint(a, b, c), inputs, aux)
      modifies this`constraints
      ensures Valid() && constraints == old(constraints) + [Constraint(a, b, c)]
    {
      constraints := constraints + [Constraint(a, b, c)];
    }

    /** Always succeeds, with the compiled matrices. */
    method R1csShape() returns (o: R1cs.Result<Shape>)
      requires Valid()
      ensures o.Ok? && ShapeFor(o.value, constraints, inputs, aux)
    {
      hide Row, RowEntries, Rows, IndicesOk, Sorted, Below;
      var a, b, c := BuildMatrices();
      CompiledInRange(a, constraints, Side.A, inputs, aux);
      CompiledInRange(b, constraints, Side.B, inputs, aux);
      CompiledInRange(c, constraints, Side.C, inputs, aux);
      var n := aux + inputs;
      WithCols(a, n, constraints, Side.A, inputs, aux);
      WithCols(b, n, constraints, Side.B, inputs, aux);
      WithCols(c, n, constraints, Side.C, inputs, aux);
      o := NewShape(|constraints|, aux, inputs - 1, a.(cols := n), b.(cols := n), c.(cols := n));
    }

    method BuildMatrices() returns (a: SparseMatrix, b: SparseMatrix, c: SparseMatrix)
      requires Valid()
      ensures Compiled(a, constraints, Side.A, aux)
      ensures Compiled(b, constraints, Side.B, aux)
      ensures Compiled(c, constraints, Side.C, aux)
    {
      var ma := new MatrixBuffer.Empty();
      var mb := new MatrixBuffer.Empty();
      var mc := new MatrixBuffer.Empty();
      hide Row, RowEntries, AppendRow, Compiled, Rows;
      NothingCompiled(aux);
      var numConsAdded := 0;
      while numConsAdded < |constraints|
        invariant ma != mb && mb != mc && ma != mc && fresh(ma) && fresh(mb) && fresh(mc)
        invariant 0 <= numConsAdded <= |constraints|
        invariant Compiled(ma.Value(), constraints[..numConsAdded], Side.A, aux)
        invariant Compiled(mb.Value(), constraints[..numConsAdded], Side.B, aux)
        invariant Compiled(mc.Value(), constraints[..numConsAdded], Side.C, aux)
      {
        assert constraints[..numConsAdded + 1] == constraints[..numConsAdded] + [constraints[numConsAdded]];
        AddConstraint(constraints[numConsAdded], aux, ma, mb, mc, constraints[..numConsAdded]);
        numConsAdded := numConsAdded + 1;
      }
      assert constraints[..numConsAdded] == constraints;
      a, b, c := ma.Value(), mb.Value(), mc.Value();
    }
  }

  lemma NothingCompiled(numVars: nat)
    ensures Compiled(EMPTY, [], Side.A, numVars) && Compiled(EMPTY, [], Side.B, numVars)
    ensures Compiled(EMPTY, [], Side.C, numVars)
  {
  }

  /** Appends one row to each matrix; `done` is what they hold already. */
  method AddConstraint(k: Constraint, numVars: nat, ma: MatrixBuffer, mb: MatrixBuffer, mc: MatrixBuffer,
                       ghost done: seq<Constraint>)
    requires ma != mb && mb != mc && ma != mc
    requires Compiled(ma.Value(), done, Side.A, numVars)
    requires Compiled(mb.Value(), done, Side.B, numVars)
    requires Compiled(mc.Value(), done, Side.C, numVars)
    modifies ma, mb, mc
    ensures Compiled(ma.Value(), done + [k], Side.A, numVars)
    ensures Compiled(mb.Value(), done + [k], Side.B, numVars)
    ensures Compiled(mc.Value(), done + [k], Side.C, numVars)
  {
    hide Row, RowEntries, AppendRow;
    CompiledStep(ma.Value(), done, Side.A, numVars, k);
    CompiledStep(mb.Value(), done, Side.B, numVars, k);
    CompiledStep(mc.Value(), done, Side.C, numVars, k);
    ma.AddRow(k.a, numVars);
    mb.AddRow(k.b, numVars);
    mc.AddRow(k.c, numVars);
  }

  lemma WithCols(m: SparseMatrix, n: nat, ks: seq<Constraint>, s: Side, numInputs: nat, numVars: nat)
    requires Compiled(m, ks, s, numVars) && numInputs >= 1 && n == numVars + numInputs
    requires IndicesOk(m, |ks|, numVars, numInputs - 1)
    requires forall i :: 0 <= i < |m.indices| ==> m.indices[i] < n
    ensures Compiled(m.(cols := n), ks, s, numVars) && Sparse.Valid(m.(cols := n))
    ensures IndicesOk(m.(cols := n), |ks|, numVars, numInputs - 1)
  {
    hide RowEntries;
    forall r | 0 <= r < |ks| ensures Row(m.(cols := n), r) == Row(m, r) {}
    forall r: nat, i: nat | InRow(m.(cols := n), r, i) ensures InRow(m, r, i) {}
  }

  ghost predicate ShapeFor(S: Shape, ks: seq<Constraint>, numInputs: nat, numVars: nat) {
    && numInputs >= 1 && S.numCons == |ks| && S.numVars == numVars && S.numIo == numInputs - 1
    && ShapeOk(S)
    && Compiled(S.A, ks, Side.A, numVars) && Compiled(S.B, ks, Side.B, numVars) && Compiled(S.C, ks, Side.C, numVars)
  }

  // --------------------------------------------------------- compiler correctness

  ghost predicate ConstraintHolds(k: Constraint, inputs: Vec, aux: Vec)
    requires ConstraintAllocated(k, |inputs|, |aux|)
  {
    Mul(EvalLC(k.a, inputs, aux), EvalLC(k.b, inputs, aux)) == EvalLC(k.c, inputs, aux)
  }

  lemma SideMeaning(m: SparseMatrix, ks: seq<Constraint>, s: Side, inputs: Vec, aux: Vec, r: nat)
    requires Sparse.Valid(m) && Compiled(m, ks, s, |aux|) && m.cols == |aux| + |inputs| && r < |ks|
    requires ConstraintAllocated(ks[r], |inputs|, |aux|)
    ensures MultiplyVec(m, aux + inputs)[r] == EvalLC(Component(ks[r], s), inputs, aux)
  {
    hide RowEntries, Sparse.Eval, Row, Sorted, Below;
    RowInRange(m, r);
    RowMeaning(Component(ks[r], s), inputs, aux);
  }

  /** Row r of each matrix times z is the value of the linear combination it came from. */
  lemma CompiledRows(S: Shape, ks: seq<Constraint>, inputs: Vec, aux: Vec, r: nat)
    requires ShapeFor(S, ks, |inputs|, |aux|) && r < |ks|
    requires ConstraintAllocated(ks[r], |inputs|, |aux|)
    ensures MultiplyVec(S.A, aux + inputs)[r] == EvalLC(ks[r].a, inputs, aux)
    ensures MultiplyVec(S.B, aux + inputs)[r] == EvalLC(ks[r].b, inputs, aux)
    ensures MultiplyVec(S.C, aux + inputs)[r] == EvalLC(ks[r].c, inputs, aux)
  {
    hide MultiplyVec, EvalLC, Compiled, Sparse.Valid, Allocated;
    SideMeaning(S.A, ks, Side.A, inputs, aux, r);
    SideMeaning(S.B, ks, Side.B, inputs, aux, r);
    SideMeaning(S.C, ks, Side.C, inputs, aux, r);
  }

  /** The compiled R1CS equation holds exactly when every recorded constraint does. */
  lemma CompilerCorrect(S: Shape, ks: seq<Constraint>, inputs: Vec, aux: Vec)
    requires ShapeFor(S, ks, |inputs|, |aux|) && |inputs| >= 1 && inputs[0] == 1
    requires AllAllocated(ks, |inputs|, |aux|)
    ensures EquationHolds(S, aux, 1, inputs[1..], Zeros(S.numCons))
      <==> forall r :: 0 <= r < |ks| ==> ConstraintHolds(ks[r], inputs, aux)
  {
    hide MultiplyVec, EvalLC, Compiled, Sparse.Valid, Mul, Add, Allocated;
    var z := aux + inputs;
    assert Z(aux, 1, inputs[1..]) == z;
    var (a, b, c) := (MultiplyVec(S.A, z), MultiplyVec(S.B, z), MultiplyVec(S.C, z));
    forall r | 0 <= r < |ks|
      ensures ConstraintHolds(ks[r], inputs, aux) <==> Mul(a[r], b[r]) == Add(Mul(1, c[r]), Zeros(S.numCons)[r])
    {
      CompiledRows(S, ks, inputs, aux, r);
      MulOne(c[r]);
      AddZero(c[r]);
    }
    if RowsHold(a, b, c, 1, Zeros(S.numCons)) {
      forall r | 0 <= r < |ks| ensures ConstraintHolds(ks[r], inputs, aux) {
        assert Mul(a[r], b[r]) == Add(Mul(1, c[r]), Zeros(S.numCons)[r]);
      }
    }
  }

  // ------------------------------------------------------------- the whole chain

  /** Shape, classification and accelerated product: the three products of a recorded
      system hold the values of the linear combinations. */
  method Products(cs: ShapeCS, inputs: Vec, aux: Vec) returns (a: Vec, b: Vec, c: Vec)
    requires cs.Valid() && |inputs| == cs.inputs && |aux| == cs.aux
    ensures |a| == |b| == |c| == |cs.constraints|
    ensures forall r :: 0 <= r < |cs.constraints| ==>
              && a[r] == EvalLC(cs.constraints[r].a, inputs, aux)
              && b[r] == EvalLC(cs.constraints[r].b, inputs, aux)
              && c[r] == EvalLC(cs.constraints[r].c, inputs, aux)
  {
    hide MultiplyVec, EvalLC, Compiled, Sparse.Valid, Allocated, Rows, Matches;
    var o := cs.R1csShape();
    var S := o.value;
    ShapeIsValid(S, cs.constraints, |inputs|, |aux|);
    var (z, ks) := (aux + inputs, cs.constraints);
    a := MultiplyClassified(S.A, z);
    b := MultiplyClassified(S.B, z);
    c := MultiplyClassified(S.C, z);
    forall r | 0 <= r < |ks|
      ensures a[r] == EvalLC(ks[r].a, inputs, aux) && b[r] == EvalLC(ks[r].b, inputs, aux) && c[r] == EvalLC(ks[r].c, inputs, aux)
    {
      CompiledRows(S, ks, inputs, aux, r);
    }
  }

  lemma ShapeIsValid(S: Shape, ks: seq<Constraint>, numInputs: nat, numVars: nat)
    requires ShapeFor(S, ks, numInputs, numVars)
    ensures Sparse.Valid(S.A) && Sparse.Valid(S.B) && Sparse.Valid(S.C)
    ensures S.A.cols == S.B.cols == S.C.cols == numVars + numInputs
    ensures NumRows(S.A) == NumRows(S.B) == NumRows(S.C) == |ks|
  {
    hide Compiled;
  }

  method MultiplyClassified(m: SparseMatrix, z: Vec) returns (out: Vec)
    requires Sparse.Valid(m) && |z| == m.cols
    ensures out == MultiplyVec(m, z)
  {
    var pc := FromSparse(m);
    out := MultiplyPrecomputed(pc, m, z);
  }

  /** The row comparison of `is_sat`, run on the compiled system, decides whether every
      recorded constraint holds. */
  method CheckConstraints(cs: ShapeCS, inputs: Vec, aux: Vec) returns (ok: bool)
    requires cs.Valid() && |inputs| == cs.inputs && |aux| == cs.aux
    ensures ok <==> forall r :: 0 <= r < |cs.constraints| ==> ConstraintHolds(cs.constraints[r], inputs, aux)
  {
    hide EvalLC, Mul, Allocated;
    var a, b, c := Products(cs, inputs, aux);
    for i := 0 to |a|
      invariant forall r :: 0 <= r < i ==> ConstraintHolds(cs.constraints[r], inputs, aux)
    {
      if Mul(a[i], b[i]) != c[i] {
        assert !ConstraintHolds(cs.constraints[i], inputs, aux);
        return false;
      }
    }
    ok := true;
  }
}
