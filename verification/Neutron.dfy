/** NeutronNova's zero-fold: the sum relation, the degree-5 round polynomial computed
    by stepping, the fold, and runs of folds. */
module Neutron {
  import opened PrimeField
  import opened FieldLaws
  import opened PrimeGroup
  import opened Vectors
  import opened Pedersen
  import opened PowersOfTwo
  import opened Padding
  import opened Polynomials
  import opened Interpolation
  import opened Gaussian
  import opened R1cs
  import opened Transcripts
  import Sparse
  import Wrappers

  // ------------------------------------------------------------------ the relation

  /** The three matrix-vector products of one pair. */
  datatype Products = Products(a: Vec, b: Vec, c: Vec)

  predicate Sized(m: Products, n: nat) {
    |m.a| == |m.b| == |m.c| == n
  }

  function Slice(m: Products, lo: nat, hi: nat): (s: Products)
    requires lo <= hi && Sized(m, |m.a|) && hi <= |m.a|
    ensures Sized(s, hi - lo)
  {
    Products(m.a[lo..hi], m.b[lo..hi], m.c[lo..hi])
  }

  /** a * b - c in every row. */
  function Defects(m: Products): (d: Vec)
    requires Sized(m, |m.a|)
    ensures |d| == |m.a|
  {
    seq(|m.a|, i requires 0 <= i < |m.a| => Sub(Mul(m.a[i], m.b[i]), m.c[i]))
  }

  /** The sum of f[i] * e[j] * d[i*|e| + j]. */
  function Bilinear(e: Vec, f: Vec, d: Vec): Fe
    requires |d| == |e| * |f|
    decreases |f|
  {
    if |f| == 0 then 0
    else
      BlockSize(|e|, |f|);
      Add(Mul(f[0], Dot(e, d[..|e|])), Bilinear(e, f[1..], d[|e|..]))
  }

  lemma BlockSize(n: nat, m: nat)
    requires m > 0
    ensures n * m == n * (m - 1) + n && n <= n * m
  {
  }

  datatype Structure = Structure(S: Shape, left: nat, right: nat)

  ghost predicate StructureOk(st: Structure) {
    ShapeOk(st.S) && st.S.numCons == st.left * st.right && st.left >= 1 && st.right >= 2
  }

  /** Splitting ell variables into halves, the first no smaller, splits 2^ell rows. */
  lemma HalvesMultiply(ell: nat, first: nat, second: nat)
    requires first == (ell + 1) / 2 && second == ell / 2
    ensures Pow2(first) * Pow2(second) == Pow2(ell) && first >= second
  {
    hide Pow2;
    assert first + second == ell;
    Pow2Add(first, second);
  }

  /** The shape is squared, and its rows are laid out in `right` blocks of `left`. */
  function NewStructure(S: Shape): Structure
    requires ShapeOk(S)
  {
    hide *;
    var padded := Square(S);
    var n := NextPowerOfTwo(padded.numCons);
    AtLeastOne(padded.numCons);
    var ell := Log2(n);
    Structure(padded, Pow2((ell + 1) / 2), Pow2(ell / 2))
  }

  lemma AtLeastOne(n: nat)
    ensures NextPowerOfTwo(n) >= 1
  {
    var i := ToPow2Meaning(n, 0);
  }

  lemma SquareRows(S: Shape)
    requires ShapeOk(S)
    ensures NextPowerOfTwo(Square(S).numCons) == Square(S).numCons
  {
    hide NextPowerOfTwo, PadMatrix, Sparse.Valid;
    NextPowerOfTwoTwice(Wrappers.Max(Wrappers.Max(S.numVars, S.numCons), S.numIo));
  }

  lemma TwoBlocks(ell: nat)
    ensures Pow2(ell / 2) >= 2 <==> Pow2(ell) >= 4
  {
    if ell >= 2 {
      Pow2Mono(1, ell / 2);
      Pow2Mono(2, ell);
      assert Pow2(1) == 2 && Pow2(2) == 4;
    }
  }

  /** Folding works on the new structure exactly when the shape was not cut short by the
      padding and has at least four rows afterwards. */
  lemma NewStructureOk(S: Shape)
    requires ShapeOk(S)
    ensures StructureOk(NewStructure(S))
      <==> (Regular(S) || S.numVars < Side(S) || S.numCons == Side(S)) && Square(S).numCons >= 4
  {
    hide Pow2, NextPowerOfTwo, Square, ShapeOk, Log2, Regular, Side;
    SquareOkExactly(S);
    SquareRows(S);
    Pow2OfLog2(Square(S).numCons);
    var ell := Log2(Square(S).numCons);
    HalvesMultiply(ell, (ell + 1) / 2, ell / 2);
    TwoBlocks(ell);
  }

  datatype FoldedWitness = FoldedWitness(W: Vec, rW: Fe, E: Vec, rE: Fe)
  datatype FoldedInstance = FoldedInstance(commW: Pt, commE: Pt, T: Fe, u: Fe, X: Vec)

  predicate Fits(st: Structure, key: Key, U: FoldedInstance, W: FoldedWitness) {
    && |W.W| == st.S.numVars <= |key.ck| && |W.E| == st.left + st.right <= |key.ck|
    && |U.X| == st.S.numIo
  }

  function Multiply(S: Shape, z: Vec): (m: Products)
    requires ShapeOk(S) && |z| == S.numVars + 1 + S.numIo
    ensures Sized(m, S.numCons)
  {
    Products(Sparse.MultiplyVec(S.A, z), Sparse.MultiplyVec(S.B, z), Sparse.MultiplyVec(S.C, z))
  }

  /** The left side of the relation: the weighted sum of all row defects. */
  function WeightedSum(st: Structure, z: Vec, E: Vec): Fe
    requires StructureOk(st) && |z| == st.S.numVars + 1 + st.S.numIo && |E| == st.left + st.right
  {
    Bilinear(E[..st.left], E[st.left..], Defects(Multiply(st.S, z)))
  }

  ghost predicate IsSat(st: Structure, key: Key, U: FoldedInstance, W: FoldedWitness) {
    && StructureOk(st) && Fits(st, key, U, W)
    && WeightedSum(st, Z(W.W, U.u, U.X), W.E) == U.T
    && U.commW == Commit(key, W.W, W.rW) && U.commE == Commit(key, W.E, W.rE)
  }

  // ------------------------------------------------- the nested loop of the relation

  function Outer(e: Vec, f: Vec): (o: Vec)
    ensures |o| == |e| * |f|
    decreases |f|
  {
    if |f| == 0 then []
    else
      BlockSize(|e|, |f|);
      VScale(f[0], e) + Outer(e, f[1..])
  }

  /** Flattening the weights gives the same sum. */
  lemma {:induction false} OuterDot(e: Vec, f: Vec, d: Vec)
    requires |d| == |e| * |f|
    ensures Dot(Outer(e, f), d) == Bilinear(e, f, d)
    decreases |f|
  {
    hide Mul, Add, Dot, VScale;
    if |f| == 0 {
      NoDot(Outer(e, f), d);
    } else {
      BlockSize(|e|, |f|);
      OuterDot(e, f[1..], d[|e|..]);
      assert d == d[..|e|] + d[|e|..];
      DotConcat(VScale(f[0], e), Outer(e, f[1..]), d[..|e|], d[|e|..]);
      DotScaleLeft(f[0], e, d[..|e|]);
    }
  }

  lemma NoDot(a: Vec, b: Vec)
    requires |a| == |b| == 0
    ensures Dot(a, b) == 0
  {
  }

  lemma {:induction false} OuterSnoc(e: Vec, f: Vec, i: nat)
    requires i < |f|
    ensures Outer(e, f[..i + 1]) == Outer(e, f[..i]) + VScale(f[i], e)
    decreases i
  {
    hide VScale;
    if i == 0 {
      assert f[..1][1..] == [] && f[..0] == [];
      assert Outer(e, f[..1]) == VScale(f[0], e) + Outer(e, f[..1][1..]);
    } else {
      OuterSnoc(e, f[1..], i - 1);
      assert f[..i + 1][1..] == f[1..][..i] && f[..i][1..] == f[1..][..i - 1];
      assert Outer(e, f[..i + 1]) == VScale(f[0], e) + Outer(e, f[1..][..i]);
      assert Outer(e, f[..i]) == VScale(f[0], e) + Outer(e, f[1..][..i - 1]);
    }
  }

  method Ones(n: nat) returns (a: array<Fe>)
    ensures fresh(a) && a.Length == n
  {
    a := new Fe[n](_ => 1);
  }

  lemma IndexInside(i: nat, right: nat, left: nat)
    requires i < right
    ensures i * left + left <= right * left && (i + 1) * left == i * left + left
  {
    MulMono(left, i + 1, right);
  }

  /** Fills one row of the weights. */
  method FillRow(fullE: array<Fe>, start: nat, weight: Fe, e: Vec)
    requires start + |e| <= fullE.Length
    modifies fullE
    ensures fullE[start..start + |e|] == VScale(weight, e)
    ensures forall k :: 0 <= k < start ==> fullE[k] == old(fullE[k])
  {
    hide Mul;
    for j := 0 to |e|
      invariant forall k :: 0 <= k < j ==> fullE[start + k] == Mul(weight, e[k])
      invariant forall k :: 0 <= k < start ==> fullE[k] == old(fullE[k])
    {
      fullE[start + j] := Mul(weight, e[j]);
    }
  }

  method OuterProduct(e: Vec, f: Vec) returns (o: Vec)
    ensures o == Outer(e, f)
  {
    hide VScale, Outer;
    var (left, right) := (|e|, |f|);
    var fullE := Ones(left * right);
    NoOuter(e, f);
    assert left * right == right * left;
    for i := 0 to right
      invariant i * left <= fullE.Length
      invariant fullE[..i * left] == Outer(e, f[..i])
    {
      IndexInside(i, right, left);
      ghost var before := fullE[..i * left];
      FillRow(fullE, i * left, f[i], e);
      assert fullE[..i * left] == before;
      assert fullE[..(i + 1) * left] == fullE[..i * left] + fullE[i * left..i * left + left];
      OuterSnoc(e, f, i);
    }
    assert f[..right] == f;
    o := fullE[..];
  }

  lemma NoOuter(e: Vec, f: Vec)
    ensures Outer(e, f[..0]) == []
  {
  }

  method CheckSat(st: Structure, key: Key, U: FoldedInstance, W: FoldedWitness) returns (ok: bool)
    requires StructureOk(st) && Fits(st, key, U, W)
    ensures ok <==> IsSat(st, key, U, W)
  {
    hide Mul, Add, Sub, Dot, Bilinear, Commit, Outer, Defects, ShapeOk, Sparse.MultiplyVec;
    var m := Multiply(st.S, Z(W.W, U.u, U.X));
    var (e1, e2) := (W.E[..st.left], W.E[st.left..]);
    var fullE := OuterProduct(e1, e2);
    OuterDot(e1, e2, Defects(m));
    var sum := Dot(fullE, Defects(m));
    if sum != U.T {
      return false;
    }
    ok := U.commW == Commit(key, W.W, W.rW) && U.commE == Commit(key, W.E, W.rE);
  }

  // ------------------------------------------------------------- powers of tau

  function PowersOf(t: Fe, n: nat): (p: Vec)
    ensures |p| == n
  {
    seq(n, i requires 0 <= i < n => Pow(t, i))
  }

  function Split(t: Fe, left: nat, right: nat): (e: Vec)
    ensures |e| == left + right
  {
    PowersOf(t, left) + PowersOf(Pow(t, left), right)
  }

  method SplitEvals(t: Fe, left: nat, right: nat) returns (e: Vec)
    requires left >= 1 && right >= 2
    ensures e == Split(t, left, right)
  {
    hide Mul, Pow;
    FirstPowers(t);
    FirstPowers(Pow(t, left));
    var l: Vec := [1];
    for i := 1 to left
      invariant l == PowersOf(t, i)
    {
      PowSnoc(t, i - 1);
      l := l + [Mul(l[i - 1], t)];
    }
    PowSnoc(t, left - 1);
    var last := Mul(l[left - 1], t);
    var r: Vec := [1, last];
    for i := 2 to right
      invariant r == PowersOf(Pow(t, left), i)
    {
      PowSnoc(last, i - 1);
      r := r + [Mul(r[i - 1], last)];
    }
    e := l + r;
  }

  lemma FirstPowers(t: Fe)
    ensures PowersOf(t, 1) == [1] && PowersOf(t, 2) == [1, t]
  {
    hide Mul;
    PowSnoc(t, 0);
    assert Pow(t, 0) == 1;
  }

  lemma {:induction false} PowPow(t: Fe, left: nat, i: nat)
    ensures Pow(Pow(t, left), i) == Pow(t, i * left)
  {
    hide Mul;
    if i > 0 {
      PowPow(t, left, i - 1);
      PowAdd(t, left, (i - 1) * left);
      assert left + (i - 1) * left == i * left;
    }
  }

  /** The outer product of the two halves is the vector of all powers. */
  lemma SplitIsPowers(t: Fe, left: nat, right: nat, i: nat, j: nat)
    requires i < right && j < left
    ensures Mul(Split(t, left, right)[left + i], Split(t, left, right)[j]) == Pow(t, i * left + j)
  {
    hide Mul, Pow;
    PowPow(t, left, i);
    PowAdd(t, i * left, j);
  }

  // --------------------------------------------------- values between two vectors

  /** The vector at x on the line through v at 0 and w at 1. */
  function Lerp(v: Vec, w: Vec, x: Fe): (u: Vec)
    requires |v| == |w|
    ensures |u| == |v|
  {
    seq(|v|, i requires 0 <= i < |v| => At(v[i], w[i], x))
  }

  function LerpProducts(m1: Products, m2: Products, x: Fe): (m: Products)
    requires Sized(m1, |m1.a|) && Sized(m2, |m1.a|)
    ensures Sized(m, |m1.a|)
  {
    Products(Lerp(m1.a, m2.a, x), Lerp(m1.b, m2.b, x), Lerp(m1.c, m2.c, x))
  }

  function EqAt(rho: Fe, x: Fe): Fe {
    Add(Mul(Sub(1, rho), Sub(1, x)), Mul(rho, x))
  }

  /** The inner sum over j of one block. */
  function InnerAt(e1: Vec, e2: Vec, m1: Products, m2: Products, x: Fe): Fe
    requires |e1| == |e2| && Sized(m1, |e1|) && Sized(m2, |e1|)
  {
    Dot(Lerp(e1, e2, x), Defects(LerpProducts(m1, m2, x)))
  }

  /** The sum at x, without the factor of the equality polynomial. */
  function SumAt(e1: Vec, e2: Vec, f1: Vec, f2: Vec, m1: Products, m2: Products, x: Fe): Fe
    requires |e1| == |e2| && |f1| == |f2| && Sized(m1, |e1| * |f1|) && Sized(m2, |e1| * |f1|)
  {
    Bilinear(Lerp(e1, e2, x), Lerp(f1, f2, x), Defects(LerpProducts(m1, m2, x)))
  }

  function RoundAt(rho: Fe, e1: Vec, e2: Vec, f1: Vec, f2: Vec, m1: Products, m2: Products, x: Fe): Fe
    requires |e1| == |e2| && |f1| == |f2| && Sized(m1, |e1| * |f1|) && Sized(m2, |e1| * |f1|)
  {
    Mul(SumAt(e1, e2, f1, f2, m1, m2, x), EqAt(rho, x))
  }

  // ------------------------------------------- the round polynomial has degree 5

  function DefectPoly(m1: Products, m2: Products, i: nat): (p: Vec)
    requires Sized(m1, |m1.a|) && Sized(m2, |m1.a|) && i < |m1.a|
    ensures |p| == 3
  {
    MulAddVec(TimesLine(TimesLine([1], m1.a[i], m2.a[i]), m1.b[i], m2.b[i]), TimesLine([1], m1.c[i], m2.c[i]), Sub(0, 1))
  }

  lemma DefectPolyAt(m1: Products, m2: Products, i: nat, x: Fe)
    requires Sized(m1, |m1.a|) && Sized(m2, |m1.a|) && i < |m1.a|
    ensures Eval(DefectPoly(m1, m2, i), x) == Defects(LerpProducts(m1, m2, x))[i]
  {
    hide Mul, Add, Sub, At, TimesLine, Eval, MulAddVec;
    var ab := TimesLine(TimesLine([1], m1.a[i], m2.a[i]), m1.b[i], m2.b[i]);
    var c := TimesLine([1], m1.c[i], m2.c[i]);
    EvalMulAddVec(ab, c, Sub(0, 1), x);
    EvalTimesLine(TimesLine([1], m1.a[i], m2.a[i]), m1.b[i], m2.b[i], x);
    OneLine(m1.a[i], m2.a[i], x);
    OneLine(m1.c[i], m2.c[i], x);
    MinusOne(Eval(ab, x), Eval(c, x));
  }

  lemma OneLine(c0: Fe, c1: Fe, x: Fe)
    ensures Eval(TimesLine([1], c0, c1), x) == At(c0, c1, x)
  {
    hide Mul, Add, At, TimesLine, Eval;
    EvalTimesLine([1], c0, c1, x);
    EvalOne(1, x);
    MulOne(At(c0, c1, x));
  }

  function InnerPoly(e1: Vec, e2: Vec, m1: Products, m2: Products): (p: Vec)
    requires |e1| == |e2| && Sized(m1, |e1|) && Sized(m2, |e1|)
    ensures |p| == 4
  {
    if |e1| == 0 then Zeros(4)
    else VAdd(TimesLine(DefectPoly(m1, m2, 0), e1[0], e2[0]),
              InnerPoly(e1[1..], e2[1..], Slice(m1, 1, |e1|), Slice(m2, 1, |e1|)))
  }

  lemma {:induction false} InnerPolyAt(e1: Vec, e2: Vec, m1: Products, m2: Products, x: Fe)
    requires |e1| == |e2| && Sized(m1, |e1|) && Sized(m2, |e1|)
    ensures Eval(InnerPoly(e1, e2, m1, m2), x) == InnerAt(e1, e2, m1, m2, x)
    decreases |e1|
  {
    hide Mul, Add, Sub, At, TimesLine, Eval, VAdd, DefectPoly;
    if |e1| == 0 {
      EvalZeros(4, x);
    } else {
      var (n1, n2) := (Slice(m1, 1, |e1|), Slice(m2, 1, |e1|));
      InnerPolyAt(e1[1..], e2[1..], n1, n2, x);
      EvalSum(TimesLine(DefectPoly(m1, m2, 0), e1[0], e2[0]), InnerPoly(e1[1..], e2[1..], n1, n2), x);
      EvalTimesLine(DefectPoly(m1, m2, 0), e1[0], e2[0], x);
      DefectPolyAt(m1, m2, 0, x);
      MulComm(Defects(LerpProducts(m1, m2, x))[0], At(e1[0], e2[0], x));
      assert Lerp(e1, e2, x)[1..] == Lerp(e1[1..], e2[1..], x);
      assert Defects(LerpProducts(m1, m2, x))[1..] == Defects(LerpProducts(n1, n2, x));
    }
  }

  function OuterPoly(e1: Vec, e2: Vec, f1: Vec, f2: Vec, m1: Products, m2: Products): (p: Vec)
    requires |e1| == |e2| && |f1| == |f2| && Sized(m1, |e1| * |f1|) && Sized(m2, |e1| * |f1|)
    ensures |p| == 5
    decreases |f1|
  {
    if |f1| == 0 then Zeros(5)
    else
      BlockSize(|e1|, |f1|);
      var (n, t) := (|e1| * |f1|, |e1|);
      VAdd(TimesLine(InnerPoly(e1, e2, Slice(m1, 0, t), Slice(m2, 0, t)), f1[0], f2[0]),
           OuterPoly(e1, e2, f1[1..], f2[1..], Slice(m1, t, n), Slice(m2, t, n)))
  }

  lemma SlicedDefects(m1: Products, m2: Products, lo: nat, hi: nat, x: Fe)
    requires Sized(m1, |m1.a|) && Sized(m2, |m1.a|) && lo <= hi <= |m1.a|
    ensures Defects(LerpProducts(m1, m2, x))[lo..hi] == Defects(LerpProducts(Slice(m1, lo, hi), Slice(m2, lo, hi), x))
  {
    hide Mul, Sub, At;
  }

  lemma {:induction false} OuterPolyAt(e1: Vec, e2: Vec, f1: Vec, f2: Vec, m1: Products, m2: Products, x: Fe)
    requires |e1| == |e2| && |f1| == |f2| && Sized(m1, |e1| * |f1|) && Sized(m2, |e1| * |f1|)
    ensures Eval(OuterPoly(e1, e2, f1, f2, m1, m2), x) == SumAt(e1, e2, f1, f2, m1, m2, x)
    decreases |f1|
  {
    hide Mul, Add, Sub, At, TimesLine, Eval, VAdd, InnerPoly, Dot, Defects, LerpProducts;
    if |f1| == 0 {
      EvalZeros(5, x);
    } else {
      BlockSize(|e1|, |f1|);
      var (n, t) := (|e1| * |f1|, |e1|);
      var (b1, b2, r1, r2) := (Slice(m1, 0, t), Slice(m2, 0, t), Slice(m1, t, n), Slice(m2, t, n));
      OuterPolyAt(e1, e2, f1[1..], f2[1..], r1, r2, x);
      EvalSum(TimesLine(InnerPoly(e1, e2, b1, b2), f1[0], f2[0]), OuterPoly(e1, e2, f1[1..], f2[1..], r1, r2), x);
      EvalTimesLine(InnerPoly(e1, e2, b1, b2), f1[0], f2[0], x);
      InnerPolyAt(e1, e2, b1, b2, x);
      MulComm(InnerAt(e1, e2, b1, b2, x), At(f1[0], f2[0], x));
      SlicedDefects(m1, m2, 0, t, x);
      SlicedDefects(m1, m2, t, n, x);
      assert Lerp(f1, f2, x)[1..] == Lerp(f1[1..], f2[1..], x);
      assert Defects(LerpProducts(m1, m2, x))[..t] == Defects(LerpProducts(m1, m2, x))[0..t];
      assert Defects(LerpProducts(m1, m2, x))[t..] == Defects(LerpProducts(m1, m2, x))[t..n];
    }
  }

  function RoundPoly(rho: Fe, e1: Vec, e2: Vec, f1: Vec, f2: Vec, m1: Products, m2: Products): (p: Vec)
    requires |e1| == |e2| && |f1| == |f2| && Sized(m1, |e1| * |f1|) && Sized(m2, |e1| * |f1|)
    ensures |p| == 6
  {
    TimesLine(OuterPoly(e1, e2, f1, f2, m1, m2), Sub(1, rho), rho)
  }

  /** Six coefficients give the round's value at every point. */
  lemma RoundPolyAt(rho: Fe, e1: Vec, e2: Vec, f1: Vec, f2: Vec, m1: Products, m2: Products, x: Fe)
    requires |e1| == |e2| && |f1| == |f2| && Sized(m1, |e1| * |f1|) && Sized(m2, |e1| * |f1|)
    ensures Eval(RoundPoly(rho, e1, e2, f1, f2, m1, m2), x) == RoundAt(rho, e1, e2, f1, f2, m1, m2, x)
  {
    hide Mul, Add, Sub, TimesLine, Eval, OuterPoly, SumAt;
    EvalTimesLine(OuterPoly(e1, e2, f1, f2, m1, m2), Sub(1, rho), rho, x);
    OuterPolyAt(e1, e2, f1, f2, m1, m2, x);
    EqIsLine(rho, x);
  }

  lemma EqIsLine(rho: Fe, x: Fe)
    ensures Add(Sub(1, rho), Mul(x, Sub(rho, Sub(1, rho)))) == Add(Mul(Sub(1, rho), Sub(1, x)), Mul(rho, x))
  {
    hide *;
    Hom();
    ROf(rho); ROf(x); ROf(1);
    EqIsLineI(rho, x);
  }

  lemma EqIsLineI(rho: int, x: int)
    ensures IAdd(ISub(1, rho), IMul(x, ISub(rho, ISub(1, rho)))) == IAdd(IMul(ISub(1, rho), ISub(1, x)), IMul(rho, x))
  {
  }

  // --------------------------------------------------------- the stepped values

  /** The values at 0, 2, 3, 4 and 5. */
  datatype Five = Five(v0: Fe, v2: Fe, v3: Fe, v4: Fe, v5: Fe)

  function AddFive(p: Five, q: Five): Five {
    Five(Add(p.v0, q.v0), Add(p.v2, q.v2), Add(p.v3, q.v3), Add(p.v4, q.v4), Add(p.v5, q.v5))
  }

  function MulFive(p: Five, q: Five): Five {
    Five(Mul(p.v0, q.v0), Mul(p.v2, q.v2), Mul(p.v3, q.v3), Mul(p.v4, q.v4), Mul(p.v5, q.v5))
  }

  /** The bound points, each from the one before by adding c1 and subtracting c0. */
  function Stepped(c0: Fe, c1: Fe): Five {
    var p2 := Sub(Add(c1, c1), c0);
    var p3 := Sub(Add(p2, c1), c0);
    var p4 := Sub(Add(p3, c1), c0);
    Five(c0, p2, p3, p4, Sub(Add(p4, c1), c0))
  }

  function AtFive(c0: Fe, c1: Fe): Five {
    Five(At(c0, c1, 0), At(c0, c1, 2), At(c0, c1, 3), At(c0, c1, 4), At(c0, c1, 5))
  }

  /** Stepping gives the values of the line. */
  lemma SteppedIsAt(c0: Fe, c1: Fe)
    ensures Stepped(c0, c1) == AtFive(c0, c1)
  {
    hide Add, Sub, Mul, At;
    StepFromZero(c0, c1);
    StepByOne(c0, c1, 2);
    StepByOne(c0, c1, 3);
    StepByOne(c0, c1, 4);
    assert Add(2, 1) == 3 && Add(3, 1) == 4 && Add(4, 1) == 5 by { SmallSums(); }
  }

  lemma SmallSums()
    ensures Add(1, 1) == 2 && Add(2, 1) == 3 && Add(3, 1) == 4 && Add(4, 1) == 5
  {
  }

  lemma StepFromZero(c0: Fe, c1: Fe)
    ensures At(c0, c1, 0) == c0 && At(c0, c1, 2) == Sub(Add(c1, c1), c0)
  {
    hide Mul, Add, Sub;
    MulOne(Sub(c1, c0));
    AddZero(c0);
    SmallSums();
    StepFromZeroF(c0, c1);
  }

  lemma StepFromZeroF(c0: Fe, c1: Fe)
    ensures Add(c0, Mul(Add(1, 1), Sub(c1, c0))) == Sub(Add(c1, c1), c0)
  {
    hide *;
    Hom();
    ROf(c0); ROf(c1); ROf(1);
    StepFromZeroI(c0, c1);
  }

  lemma StepFromZeroI(c0: int, c1: int)
    ensures IAdd(c0, IMul(IAdd(1, 1), ISub(c1, c0))) == ISub(IAdd(c1, c1), c0)
  {
  }

  lemma StepByOne(c0: Fe, c1: Fe, x: Fe)
    ensures At(c0, c1, Add(x, 1)) == Sub(Add(At(c0, c1, x), c1), c0)
  {
    hide Mul, Add, Sub;
    StepByOneF(c0, c1, x);
  }

  lemma StepByOneF(c0: Fe, c1: Fe, x: Fe)
    ensures Add(c0, Mul(Add(x, 1), Sub(c1, c0))) == Sub(Add(Add(c0, Mul(x, Sub(c1, c0))), c1), c0)
  {
    hide *;
    Hom();
    ROf(c0); ROf(c1); ROf(x); ROf(1);
    StepByOneI(c0, c1, x);
  }

  lemma StepByOneI(c0: int, c1: int, x: int)
    ensures IAdd(c0, IMul(IAdd(x, 1), ISub(c1, c0))) == ISub(IAdd(IAdd(c0, IMul(x, ISub(c1, c0))), c1), c0)
  {
  }

  /** e * (a * b - c) at the five points. */
  function CombFive(e: Five, a: Five, b: Five, c: Five): Five {
    MulFive(e, Five(Sub(Mul(a.v0, b.v0), c.v0), Sub(Mul(a.v2, b.v2), c.v2), Sub(Mul(a.v3, b.v3), c.v3),
                    Sub(Mul(a.v4, b.v4), c.v4), Sub(Mul(a.v5, b.v5), c.v5)))
  }

  function InnerFive(e1: Vec, e2: Vec, m1: Products, m2: Products): Five
    requires |e1| == |e2| && Sized(m1, |e1|) && Sized(m2, |e1|)
  {
    Five(InnerAt(e1, e2, m1, m2, 0), InnerAt(e1, e2, m1, m2, 2), InnerAt(e1, e2, m1, m2, 3),
         InnerAt(e1, e2, m1, m2, 4), InnerAt(e1, e2, m1, m2, 5))
  }

  lemma DotSnoc(a: Vec, b: Vec, j: nat)
    requires |a| == |b| && j < |a|
    ensures Dot(a[..j + 1], b[..j + 1]) == Add(Dot(a[..j], b[..j]), Mul(a[j], b[j]))
  {
    hide Mul, Add;
    assert a[..j + 1] == a[..j] + [a[j]] && b[..j + 1] == b[..j] + [b[j]];
    DotConcat(a[..j], [a[j]], b[..j], [b[j]]);
    NoDot([a[j]][1..], [b[j]][1..]);
    AddZero(Mul(a[j], b[j]));
  }

  lemma InnerSnoc(e1: Vec, e2: Vec, m1: Products, m2: Products, j: nat, x: Fe)
    requires |e1| == |e2| && Sized(m1, |e1|) && Sized(m2, |e1|) && j < |e1|
    ensures InnerAt(e1[..j + 1], e2[..j + 1], Slice(m1, 0, j + 1), Slice(m2, 0, j + 1), x)
         == Add(InnerAt(e1[..j], e2[..j], Slice(m1, 0, j), Slice(m2, 0, j), x),
                Mul(At(e1[j], e2[j], x), Defects(LerpProducts(m1, m2, x))[j]))
  {
    hide Mul, Add, Sub, At, Dot, Defects, LerpProducts;
    var d := Defects(LerpProducts(m1, m2, x));
    DotSnoc(Lerp(e1, e2, x), d, j);
    SlicedDefects(m1, m2, 0, j, x);
    SlicedDefects(m1, m2, 0, j + 1, x);
    assert Lerp(e1, e2, x)[..j] == Lerp(e1[..j], e2[..j], x);
    assert Lerp(e1, e2, x)[..j + 1] == Lerp(e1[..j + 1], e2[..j + 1], x);
    assert d[..j] == d[0..j] && d[..j + 1] == d[0..j + 1];
  }

  /** One more index of the inner sum, at all five points. */
  lemma InnerFiveSnoc(e1: Vec, e2: Vec, m1: Products, m2: Products, j: nat)
    requires |e1| == |e2| && Sized(m1, |e1|) && Sized(m2, |e1|) && j < |e1|
    ensures InnerFive(e1[..j + 1], e2[..j + 1], Slice(m1, 0, j + 1), Slice(m2, 0, j + 1))
         == AddFive(InnerFive(e1[..j], e2[..j], Slice(m1, 0, j), Slice(m2, 0, j)),
                    CombFive(Stepped(e1[j], e2[j]), Stepped(m1.a[j], m2.a[j]), Stepped(m1.b[j], m2.b[j]),
                             Stepped(m1.c[j], m2.c[j])))
  {
    hide Mul, Add, Sub, At, InnerAt, Stepped;
    SteppedIsAt(e1[j], e2[j]);
    SteppedIsAt(m1.a[j], m2.a[j]);
    SteppedIsAt(m1.b[j], m2.b[j]);
    SteppedIsAt(m1.c[j], m2.c[j]);
    InnerSnoc(e1, e2, m1, m2, j, 0);
    InnerSnoc(e1, e2, m1, m2, j, 2);
    InnerSnoc(e1, e2, m1, m2, j, 3);
    InnerSnoc(e1, e2, m1, m2, j, 4);
    InnerSnoc(e1, e2, m1, m2, j, 5);
  }

  lemma InnerNone(m1: Products, m2: Products)
    requires Sized(m1, |m1.a|) && Sized(m2, |m1.a|)
    ensures InnerFive([], [], Slice(m1, 0, 0), Slice(m2, 0, 0)) == Five(0, 0, 0, 0, 0)
  {
  }

  /** The inner sum of block i, with k = i * left + j. */
  method InnerSum(left: nat, start: nat, e1: Vec, e2: Vec, m1: Products, m2: Products) returns (acc: Five)
    requires |e1| == |e2| == left && Sized(m1, |m1.a|) && Sized(m2, |m1.a|) && start + left <= |m1.a|
    ensures acc == InnerFive(e1, e2, Slice(m1, start, start + left), Slice(m2, start, start + left))
  {
    hide InnerFive, Stepped, CombFive, AddFive;
    ghost var (b1, b2) := (Slice(m1, start, start + left), Slice(m2, start, start + left));
    acc := Five(0, 0, 0, 0, 0);
    InnerNone(b1, b2);
    for j := 0 to left
      invariant acc == InnerFive(e1[..j], e2[..j], Slice(b1, 0, j), Slice(b2, 0, j))
    {
      InnerFiveSnoc(e1, e2, b1, b2, j);
      var k := start + j;
      acc := AddFive(acc, CombFive(Stepped(e1[j], e2[j]), Stepped(m1.a[k], m2.a[k]), Stepped(m1.b[k], m2.b[k]),
                                   Stepped(m1.c[k], m2.c[k])));
    }
    assert e1[..left] == e1 && e2[..left] == e2;
    assert Slice(b1, 0, left) == b1 && Slice(b2, 0, left) == b2;
  }

  lemma {:induction false} BilinearSnoc(e: Vec, f: Vec, w: Fe, d: Vec, block: Vec)
    requires |d| == |e| * |f| && |block| == |e| && |d + block| == |e| * |f + [w]|
    ensures Bilinear(e, f + [w], d + block) == Add(Bilinear(e, f, d), Mul(w, Dot(e, block)))
    decreases |f|
  {
    hide Mul, Add, Dot;
    if |f| == 0 {
      assert d + block == block && block[..|e|] == block;
      assert (f + [w])[1..] == [];
      AddZero(Mul(w, Dot(e, block)));
    } else {
      BlockSize(|e|, |f|);
      BlockSize(|e|, |f| + 1);
      assert (f + [w])[1..] == f[1..] + [w];
      assert (d + block)[..|e|] == d[..|e|] && (d + block)[|e|..] == d[|e|..] + block;
      BilinearSnoc(e, f[1..], w, d[|e|..], block);
      AddAssoc(Mul(f[0], Dot(e, d[..|e|])), Bilinear(e, f[1..], d[|e|..]), Mul(w, Dot(e, block)));
    }
  }

  function SumFive(e1: Vec, e2: Vec, f1: Vec, f2: Vec, m1: Products, m2: Products): Five
    requires |e1| == |e2| && |f1| == |f2| && Sized(m1, |e1| * |f1|) && Sized(m2, |e1| * |f1|)
  {
    Five(SumAt(e1, e2, f1, f2, m1, m2, 0), SumAt(e1, e2, f1, f2, m1, m2, 2), SumAt(e1, e2, f1, f2, m1, m2, 3),
         SumAt(e1, e2, f1, f2, m1, m2, 4), SumAt(e1, e2, f1, f2, m1, m2, 5))
  }

  lemma SumSnoc(e1: Vec, e2: Vec, f1: Vec, f2: Vec, m1: Products, m2: Products, i: nat, lo: nat, hi: nat, x: Fe)
    requires |e1| == |e2| && |f1| == |f2| && i < |f1| && Sized(m1, |m1.a|) && Sized(m2, |m1.a|)
    requires lo == |e1| * i && hi == |e1| * (i + 1) && lo <= hi == lo + |e1| <= |m1.a|
    ensures SumAt(e1, e2, f1[..i + 1], f2[..i + 1], Slice(m1, 0, hi), Slice(m2, 0, hi), x)
         == Add(SumAt(e1, e2, f1[..i], f2[..i], Slice(m1, 0, lo), Slice(m2, 0, lo), x),
                Mul(At(f1[i], f2[i], x), InnerAt(e1, e2, Slice(m1, lo, hi), Slice(m2, lo, hi), x)))
  {
    hide Mul, Add, Sub, At, Dot, Defects, LerpProducts, Bilinear;
    var d := Defects(LerpProducts(m1, m2, x));
    SlicedDefects(m1, m2, 0, lo, x);
    SlicedDefects(m1, m2, 0, hi, x);
    SlicedDefects(m1, m2, lo, hi, x);
    assert d[0..hi] == d[0..lo] + d[lo..hi];
    assert Lerp(f1[..i + 1], f2[..i + 1], x) == Lerp(f1[..i], f2[..i], x) + [At(f1[i], f2[i], x)];
    BilinearSnoc(Lerp(e1, e2, x), Lerp(f1[..i], f2[..i], x), At(f1[i], f2[i], x), d[0..lo], d[lo..hi]);
  }

  lemma SumFiveSnoc(e1: Vec, e2: Vec, f1: Vec, f2: Vec, m1: Products, m2: Products, i: nat, lo: nat, hi: nat)
    requires |e1| == |e2| && |f1| == |f2| && i < |f1| && Sized(m1, |m1.a|) && Sized(m2, |m1.a|)
    requires lo == |e1| * i && hi == |e1| * (i + 1) && lo <= hi == lo + |e1| <= |m1.a|
    ensures SumFive(e1, e2, f1[..i + 1], f2[..i + 1], Slice(m1, 0, hi), Slice(m2, 0, hi))
         == AddFive(SumFive(e1, e2, f1[..i], f2[..i], Slice(m1, 0, lo), Slice(m2, 0, lo)),
                    MulFive(Stepped(f1[i], f2[i]), InnerFive(e1, e2, Slice(m1, lo, hi), Slice(m2, lo, hi))))
  {
    hide Mul, Add, At, InnerAt, SumAt, Stepped, Slice;
    SteppedIsAt(f1[i], f2[i]);
    SumSnoc(e1, e2, f1, f2, m1, m2, i, lo, hi, 0);
    SumSnoc(e1, e2, f1, f2, m1, m2, i, lo, hi, 2);
    SumSnoc(e1, e2, f1, f2, m1, m2, i, lo, hi, 3);
    SumSnoc(e1, e2, f1, f2, m1, m2, i, lo, hi, 4);
    SumSnoc(e1, e2, f1, f2, m1, m2, i, lo, hi, 5);
  }

  lemma SumNone(e1: Vec, e2: Vec, m1: Products, m2: Products)
    requires |e1| == |e2| && Sized(m1, |m1.a|) && Sized(m2, |m1.a|)
    ensures Sized(Slice(m1, 0, 0), |e1| * 0) && Sized(Slice(m2, 0, 0), |e1| * 0)
    ensures SumFive(e1, e2, [], [], Slice(m1, 0, 0), Slice(m2, 0, 0)) == Five(0, 0, 0, 0, 0)
  {
  }

  /** The factors of the equality polynomial at the five points. */
  function RhoFive(rho: Fe): Five {
    Five(Sub(1, rho), Sub(Mul(3, rho), 1), Sub(Mul(5, rho), 2), Sub(Mul(7, rho), 3), Sub(Mul(R(9), rho), 4))
  }

  lemma RhoFiveIsEq(rho: Fe)
    ensures RhoFive(rho) == Five(EqAt(rho, 0), EqAt(rho, 2), EqAt(rho, 3), EqAt(rho, 4), EqAt(rho, 5))
  {
    hide Mul, Add, Sub, R;
    ROf(0); ROf(1); ROf(2); ROf(3); ROf(4); ROf(5); ROf(7);
    EqFactor(rho, 2, 3);
    EqFactor(rho, 3, 5);
    EqFactor(rho, 4, 7);
    EqFactor(rho, 5, 9);
    EqAtZero(rho);
  }

  lemma EqAtZero(rho: Fe)
    ensures EqAt(rho, 0) == Sub(1, rho)
  {
    hide Mul, Add, Sub;
    MulOne(rho);
    MulOne(Sub(1, rho));
    AddZero(Sub(1, rho));
    AddZero(1);
  }

  lemma EqAtOne(rho: Fe)
    ensures EqAt(rho, 1) == rho
  {
    hide Mul, Add, Sub;
    MulOne(rho);
    MulOne(Sub(1, rho));
    AddZero(rho);
    AddZero(1);
  }

  lemma EqFactor(rho: Fe, x: nat, k: nat)
    requires k + 1 == 2 * x
    ensures Add(Mul(Sub(1, rho), Sub(1, R(x))), Mul(rho, R(x))) == Sub(Mul(R(k), rho), R(x - 1))
  {
    hide *;
    Hom();
    ROf(rho); ROf(1);
    EqFactorI(rho, x, k);
  }

  lemma EqFactorI(rho: int, x: int, k: int)
    requires k + 1 == 2 * x
    ensures IAdd(IMul(ISub(1, rho), ISub(1, x)), IMul(rho, x)) == ISub(IMul(k, rho), x - 1)
  {
  }

  /** The prover's five values are the round's values at 0, 2, 3, 4 and 5. */
  method ProveHelper(rho: Fe, left: nat, right: nat, E1: Vec, m1: Products, E2: Vec, m2: Products) returns (v: Five)
    requires |E1| == |E2| == left + right && Sized(m1, left * right) && Sized(m2, left * right)
    ensures var (e1, e2, f1, f2) := (E1[..left], E2[..left], E1[left..], E2[left..]);
      v == Five(RoundAt(rho, e1, e2, f1, f2, m1, m2, 0), RoundAt(rho, e1, e2, f1, f2, m1, m2, 2),
                RoundAt(rho, e1, e2, f1, f2, m1, m2, 3), RoundAt(rho, e1, e2, f1, f2, m1, m2, 4),
                RoundAt(rho, e1, e2, f1, f2, m1, m2, 5))
  {
    hide Stepped, InnerFive, SumFive, AddFive, RhoFive, Slice, EqAt, SumAt;
    var (e1, e2, f1, f2) := (E1[..left], E2[..left], E1[left..], E2[left..]);
    var acc := Five(0, 0, 0, 0, 0);
    SumNone(e1, e2, m1, m2);
    assert f1[..0] == [] && f2[..0] == [];
    for i := 0 to right
      invariant left * i <= left * right
      invariant acc == SumFive(e1, e2, f1[..i], f2[..i], Slice(m1, 0, left * i), Slice(m2, 0, left * i))
    {
      IndexInside(i, right, left);
      assert left * (i + 1) == left * i + left && left * right == right * left && left * i == i * left;
      var inner := InnerSum(left, i * left, e1, e2, m1, m2);
      SumFiveSnoc(e1, e2, f1, f2, m1, m2, i, left * i, left * (i + 1));
      acc := AddFive(acc, MulFive(Stepped(f1[i], f2[i]), inner));
    }
    WholeSlice(m1, left * right);
    WholeSlice(m2, left * right);
    assert f1[..right] == f1 && f2[..right] == f2;
    RhoFiveIsEq(rho);
    v := MulFive(acc, RhoFive(rho));
    assert v == MulFive(SumFive(e1, e2, f1, f2, m1, m2), RhoFive(rho));
    SumFiveIs(e1, e2, f1, f2, m1, m2);
  }

  lemma WholeSlice(m: Products, n: nat)
    requires Sized(m, n)
    ensures Slice(m, 0, n) == m
  {
  }

  lemma SumFiveIs(e1: Vec, e2: Vec, f1: Vec, f2: Vec, m1: Products, m2: Products)
    requires |e1| == |e2| && |f1| == |f2| && Sized(m1, |e1| * |f1|) && Sized(m2, |e1| * |f1|)
    ensures SumFive(e1, e2, f1, f2, m1, m2)
         == Five(SumAt(e1, e2, f1, f2, m1, m2, 0), SumAt(e1, e2, f1, f2, m1, m2, 2),
                 SumAt(e1, e2, f1, f2, m1, m2, 3), SumAt(e1, e2, f1, f2, m1, m2, 4),
                 SumAt(e1, e2, f1, f2, m1, m2, 5))
  {
  }

  // ------------------------------------------------------- the prover's polynomial

  /** The polynomial through the stepped values and, at 1, what the claim T leaves. */
  function SentPoly(T: Fe, rho: Fe, e1: Vec, e2: Vec, f1: Vec, f2: Vec, m1: Products, m2: Products): (p: Vec)
    requires |e1| == |e2| && |f1| == |f2| && Sized(m1, |e1| * |f1|) && Sized(m2, |e1| * |f1|)
    ensures |p| == 6
  {
    FromEvals([RoundAt(rho, e1, e2, f1, f2, m1, m2, 0), Sub(T, RoundAt(rho, e1, e2, f1, f2, m1, m2, 0)),
               RoundAt(rho, e1, e2, f1, f2, m1, m2, 2), RoundAt(rho, e1, e2, f1, f2, m1, m2, 3),
               RoundAt(rho, e1, e2, f1, f2, m1, m2, 4), RoundAt(rho, e1, e2, f1, f2, m1, m2, 5)])
  }

  /** The polynomial sent has the round's value at x exactly when the claim T is the sum
      of the round's values at 0 and 1, or x is one of the points it was built from. */
  lemma SentPolyExactly(T: Fe, rho: Fe, e1: Vec, e2: Vec, f1: Vec, f2: Vec, m1: Products, m2: Products, x: Fe)
    requires |e1| == |e2| && |f1| == |f2| && Sized(m1, |e1| * |f1|) && Sized(m2, |e1| * |f1|)
    ensures Eval(SentPoly(T, rho, e1, e2, f1, f2, m1, m2), x) == RoundAt(rho, e1, e2, f1, f2, m1, m2, x)
       <==> T == Add(RoundAt(rho, e1, e2, f1, f2, m1, m2, 0), RoundAt(rho, e1, e2, f1, f2, m1, m2, 1))
            || x in [0, 2, 3, 4, 5]
  {
    hide Mul, Add, Sub, Eval, SentPoly, RoundPoly, RoundAt, FromEvals;
    var p, g := SentPoly(T, rho, e1, e2, f1, f2, m1, m2), RoundPoly(rho, e1, e2, f1, f2, m1, m2);
    SentPolyAt(T, rho, e1, e2, f1, f2, m1, m2);
    forall y: Fe ensures Eval(g, y) == RoundAt(rho, e1, e2, f1, f2, m1, m2, y) {
      RoundPolyAt(rho, e1, e2, f1, f2, m1, m2, y);
    }
    AgreeExactly(p, g, x);
    SumOfTwo(T, Eval(g, 0), Eval(g, 1));
  }

  lemma SumOfTwo(t: Fe, a: Fe, b: Fe)
    ensures Sub(t, a) == b <==> t == Add(a, b)
  {
  }

  lemma SentPolyAt(T: Fe, rho: Fe, e1: Vec, e2: Vec, f1: Vec, f2: Vec, m1: Products, m2: Products)
    requires |e1| == |e2| && |f1| == |f2| && Sized(m1, |e1| * |f1|) && Sized(m2, |e1| * |f1|)
    ensures var p := SentPoly(T, rho, e1, e2, f1, f2, m1, m2);
      && Eval(p, 0) == RoundAt(rho, e1, e2, f1, f2, m1, m2, 0)
      && Eval(p, 1) == Sub(T, RoundAt(rho, e1, e2, f1, f2, m1, m2, 0))
      && Eval(p, 2) == RoundAt(rho, e1, e2, f1, f2, m1, m2, 2)
      && Eval(p, 3) == RoundAt(rho, e1, e2, f1, f2, m1, m2, 3)
      && Eval(p, 4) == RoundAt(rho, e1, e2, f1, f2, m1, m2, 4)
      && Eval(p, 5) == RoundAt(rho, e1, e2, f1, f2, m1, m2, 5)
  {
    hide Mul, Add, Sub, Eval, RoundAt, FromEvals;
    var ys := [RoundAt(rho, e1, e2, f1, f2, m1, m2, 0), Sub(T, RoundAt(rho, e1, e2, f1, f2, m1, m2, 0)),
               RoundAt(rho, e1, e2, f1, f2, m1, m2, 2), RoundAt(rho, e1, e2, f1, f2, m1, m2, 3),
               RoundAt(rho, e1, e2, f1, f2, m1, m2, 4), RoundAt(rho, e1, e2, f1, f2, m1, m2, 5)];
    FromEvalsMeets(ys, 0);
    FromEvalsMeets(ys, 1);
    FromEvalsMeets(ys, 2);
    FromEvalsMeets(ys, 3);
    FromEvalsMeets(ys, 4);
    FromEvalsMeets(ys, 5);
  }

  /** Two polynomials of degree below 6 that agree at 0, 2, 3, 4 and 5 agree at another
      point exactly when they agree at 1. */
  lemma AgreeExactly(p: Vec, g: Vec, x: Fe)
    requires |p| == |g| == 6
    requires Eval(p, 0) == Eval(g, 0) && Eval(p, 2) == Eval(g, 2) && Eval(p, 3) == Eval(g, 3)
    requires Eval(p, 4) == Eval(g, 4) && Eval(p, 5) == Eval(g, 5)
    ensures Eval(p, x) == Eval(g, x) <==> Eval(p, 1) == Eval(g, 1) || x in [0, 2, 3, 4, 5]
  {
    hide Eval;
    if Eval(p, x) == Eval(g, x) && x !in [0, 2, 3, 4, 5] {
      SameEverywhere(p, g, [0, 2, 3, 4, 5, x], 1);
    }
    if Eval(p, 1) == Eval(g, 1) {
      SameEverywhere(p, g, [0, 1, 2, 3, 4, 5], x);
    }
  }

  // ------------------------------------------------------------------- the fold

  datatype Nifs = Nifs(commE: Pt, poly: Vec)

  function FoldWitness(W1: FoldedWitness, W2: Witness, E2: Vec, rE2: Fe, rb: Fe): FoldedWitness
    requires |W1.W| == |W2.W| && |W1.E| == |E2|
  {
    FoldedWitness(Lerp(W1.W, W2.W, rb), Add(Mul(Sub(1, rb), W1.rW), Mul(rb, W2.rW)),
                  Lerp(W1.E, E2, rb), Add(Mul(Sub(1, rb), W1.rE), Mul(rb, rE2)))
  }

  function FoldInstance(U1: FoldedInstance, U2: Instance, commE: Pt, rb: Fe, TOut: Fe): FoldedInstance
    requires |U1.X| == |U2.X|
  {
    FoldedInstance(Plus(Smul(Sub(1, rb), U1.commW), Smul(rb, U2.commW)),
                   Plus(Smul(Sub(1, rb), U1.commE), Smul(rb, commE)), TOut,
                   Add(Mul(Sub(1, rb), U1.u), rb), VAdd(VScale(Sub(1, rb), U1.X), VScale(rb, U2.X)))
  }

  lemma AtIsWeighted(a: Fe, b: Fe, r: Fe)
    ensures At(a, b, r) == Add(Mul(Sub(1, r), a), Mul(r, b))
  {
    hide Mul, Add, Sub;
    AtIsWeightedF(a, b, r);
  }

  lemma AtIsWeightedF(a: Fe, b: Fe, r: Fe)
    ensures Add(a, Mul(r, Sub(b, a))) == Add(Mul(Sub(1, r), a), Mul(r, b))
  {
    hide *;
    Hom();
    ROf(a); ROf(b); ROf(r); ROf(1);
    AtIsWeightedI(a, b, r);
  }

  lemma AtIsWeightedI(a: int, b: int, r: int)
    ensures IAdd(a, IMul(r, ISub(b, a))) == IAdd(IMul(ISub(1, r), a), IMul(r, b))
  {
  }

  lemma LerpIsWeighted(v: Vec, w: Vec, r: Fe)
    requires |v| == |w|
    ensures Lerp(v, w, r) == VAdd(VScale(Sub(1, r), v), VScale(r, w))
  {
    hide Mul, Add, Sub, At;
    forall i | 0 <= i < |v| ensures Lerp(v, w, r)[i] == VAdd(VScale(Sub(1, r), v), VScale(r, w))[i] {
      AtIsWeighted(v[i], w[i], r);
    }
  }

  lemma MultiplyLerp(m: Sparse.SparseMatrix, v: Vec, w: Vec, r: Fe)
    requires Sparse.Valid(m) && |v| == |w| == m.cols
    ensures Sparse.MultiplyVec(m, Lerp(v, w, r)) == Lerp(Sparse.MultiplyVec(m, v), Sparse.MultiplyVec(m, w), r)
  {
    hide Sparse.MultiplyVec, Lerp, VAdd, VScale, Sub, Sparse.Valid;
    LerpIsWeighted(v, w, r);
    Sparse.MultiplyAdd(m, VScale(Sub(1, r), v), VScale(r, w));
    Sparse.MultiplyScale(m, Sub(1, r), v);
    Sparse.MultiplyScale(m, r, w);
    LerpIsWeighted(Sparse.MultiplyVec(m, v), Sparse.MultiplyVec(m, w), r);
  }

  lemma FoldedProducts(S: Shape, z1: Vec, z2: Vec, r: Fe)
    requires ShapeOk(S) && |z1| == |z2| == S.numVars + 1 + S.numIo
    ensures Multiply(S, Lerp(z1, z2, r)) == LerpProducts(Multiply(S, z1), Multiply(S, z2), r)
  {
    hide Sparse.MultiplyVec, Lerp, Sparse.Valid;
    MultiplyLerp(S.A, z1, z2, r);
    MultiplyLerp(S.B, z1, z2, r);
    MultiplyLerp(S.C, z1, z2, r);
  }

  lemma FoldedZ(W1: Vec, u1: Fe, X1: Vec, W2: Vec, X2: Vec, r: Fe)
    requires |W1| == |W2| && |X1| == |X2|
    ensures Z(Lerp(W1, W2, r), Add(Mul(Sub(1, r), u1), r), VAdd(VScale(Sub(1, r), X1), VScale(r, X2)))
         == Lerp(Z(W1, u1, X1), Z(W2, 1, X2), r)
  {
    hide Mul, Add, Sub, At;
    AtIsWeighted(u1, 1, r);
    MulOne(r);
    LerpIsWeighted(X1, X2, r);
  }

  /** The relation's sum for the folded pair is the round's sum at the challenge. */
  lemma FoldedSum(st: Structure, U1: FoldedInstance, W1: FoldedWitness, U2: Instance, W2: Witness, E2: Vec, r: Fe)
    requires StructureOk(st) && |W1.W| == |W2.W| == st.S.numVars && |U1.X| == |U2.X| == st.S.numIo
    requires |W1.E| == |E2| == st.left + st.right
    ensures var (m1, m2) := (Multiply(st.S, Z(W1.W, U1.u, U1.X)), Multiply(st.S, Z(W2.W, 1, U2.X)));
      var u := Add(Mul(Sub(1, r), U1.u), r);
      var X := VAdd(VScale(Sub(1, r), U1.X), VScale(r, U2.X));
      WeightedSum(st, Z(Lerp(W1.W, W2.W, r), u, X), Lerp(W1.E, E2, r))
      == SumAt(W1.E[..st.left], E2[..st.left], W1.E[st.left..], E2[st.left..], m1, m2, r)
  {
    hide Mul, Add, Sub, At, Multiply, Bilinear, Defects, LerpProducts, ShapeOk;
    FoldedZ(W1.W, U1.u, U1.X, W2.W, U2.X, r);
    FoldedProducts(st.S, Z(W1.W, U1.u, U1.X), Z(W2.W, 1, U2.X), r);
    assert Lerp(W1.E, E2, r)[..st.left] == Lerp(W1.E[..st.left], E2[..st.left], r);
    assert Lerp(W1.E, E2, r)[st.left..] == Lerp(W1.E[st.left..], E2[st.left..], r);
  }

  lemma AtEnds(a: Fe, b: Fe)
    ensures At(a, b, 0) == a && At(a, b, 1) == b
  {
    hide Mul, Sub, Add;
    MulOne(Sub(b, a));
    AddZero(a);
    AddSub(a, b);
  }

  lemma LerpEnds(v: Vec, w: Vec)
    requires |v| == |w|
    ensures Lerp(v, w, 0) == v && Lerp(v, w, 1) == w
  {
    hide At;
    forall i | 0 <= i < |v| ensures Lerp(v, w, 0)[i] == v[i] && Lerp(v, w, 1)[i] == w[i] {
      AtEnds(v[i], w[i]);
    }
  }

  /** At 0 and 1 the round weighs the two pairs' own sums. */
  lemma RoundEnds(rho: Fe, e1: Vec, e2: Vec, f1: Vec, f2: Vec, m1: Products, m2: Products)
    requires |e1| == |e2| && |f1| == |f2| && Sized(m1, |e1| * |f1|) && Sized(m2, |e1| * |f1|)
    ensures RoundAt(rho, e1, e2, f1, f2, m1, m2, 0) == Mul(Sub(1, rho), Bilinear(e1, f1, Defects(m1)))
    ensures RoundAt(rho, e1, e2, f1, f2, m1, m2, 1) == Mul(rho, Bilinear(e2, f2, Defects(m2)))
  {
    hide Mul, Add, Sub, Lerp, Bilinear, Defects, EqAt;
    LerpEnds(e1, e2);
    LerpEnds(f1, f2);
    LerpEnds(m1.a, m2.a);
    LerpEnds(m1.b, m2.b);
    LerpEnds(m1.c, m2.c);
    EqAtZero(rho);
    EqAtOne(rho);
    MulComm(Sub(1, rho), Bilinear(e1, f1, Defects(m1)));
    MulComm(rho, Bilinear(e2, f2, Defects(m2)));
  }

  function StepPoly(st: Structure, U1: FoldedInstance, W1: FoldedWitness, U2: Instance, W2: Witness, E2: Vec, rho: Fe): (p: Vec)
    requires StructureOk(st) && |W1.W| == |W2.W| == st.S.numVars && |U1.X| == |U2.X| == st.S.numIo
    requires |W1.E| == |E2| == st.left + st.right
    ensures |p| == 6
  {
    SentPoly(Mul(Sub(1, rho), U1.T), rho, W1.E[..st.left], E2[..st.left], W1.E[st.left..], E2[st.left..],
             Multiply(st.S, Z(W1.W, U1.u, U1.X)), Multiply(st.S, Z(W2.W, 1, U2.X)))
  }

  /** For any two pairs, satisfying or not, the folded sum equals the new claim exactly
      when the two pairs' errors, weighted by the equality polynomial at rho, cancel, or
      the challenge is one of the points the polynomial was built from. */
  lemma HonestSumExactly(st: Structure, U1: FoldedInstance, W1: FoldedWitness, U2: Instance, W2: Witness, E2: Vec,
                         rho: Fe, rb: Fe, TOut: Fe)
    requires StructureOk(st) && |W1.W| == |W2.W| == st.S.numVars && |U1.X| == |U2.X| == st.S.numIo
    requires |W1.E| == |E2| == st.left + st.right && EqAt(rho, rb) != 0
    requires TOut == Mul(Eval(StepPoly(st, U1, W1, U2, W2, E2, rho), rb), Inv(EqAt(rho, rb)))
    ensures var u := Add(Mul(Sub(1, rb), U1.u), rb);
      var X := VAdd(VScale(Sub(1, rb), U1.X), VScale(rb, U2.X));
      WeightedSum(st, Z(Lerp(W1.W, W2.W, rb), u, X), Lerp(W1.E, E2, rb)) == TOut
      <==> Mul(Sub(1, rho), U1.T) == Add(Mul(Sub(1, rho), WeightedSum(st, Z(W1.W, U1.u, U1.X), W1.E)),
                                         Mul(rho, WeightedSum(st, Z(W2.W, 1, U2.X), E2)))
           || rb in [0, 2, 3, 4, 5]
  {
    hide Mul, Add, Sub, Inv, Eval, Lerp, SentPoly, Multiply, Bilinear, Defects, EqAt, SumAt, ShapeOk;
    var (m1, m2) := (Multiply(st.S, Z(W1.W, U1.u, U1.X)), Multiply(st.S, Z(W2.W, 1, U2.X)));
    var (e1, e2, f1, f2) := (W1.E[..st.left], E2[..st.left], W1.E[st.left..], E2[st.left..]);
    FoldedSum(st, U1, W1, U2, W2, E2, rb);
    SentPolyExactly(Mul(Sub(1, rho), U1.T), rho, e1, e2, f1, f2, m1, m2, rb);
    RoundEnds(rho, e1, e2, f1, f2, m1, m2);
    DivideOut(Eval(StepPoly(st, U1, W1, U2, W2, E2, rho), rb), EqAt(rho, rb), SumAt(e1, e2, f1, f2, m1, m2, rb));
  }

  lemma DivideOut(p: Fe, q: Fe, s: Fe)
    requires q != 0
    ensures s == Mul(p, Inv(q)) <==> p == Mul(s, q)
  {
    hide *;
    MulInv(q);
    MulAssoc(p, Inv(q), q);
    MulAssoc(s, q, Inv(q));
    MulOne(p);
    MulOne(s);
  }

  lemma {:induction false} ZeroDefects(e: Vec, f: Vec, d: Vec)
    requires |d| == |e| * |f| && forall i :: 0 <= i < |d| ==> d[i] == 0
    ensures Bilinear(e, f, d) == 0
    decreases |f|
  {
    hide Mul, Add, Dot;
    if |f| > 0 {
      BlockSize(|e|, |f|);
      ZeroDefects(e, f[1..], d[|e|..]);
      assert d[..|e|] == Zeros(|e|);
      DotComm(e, Zeros(|e|));
      DotZeros(|e|, e);
      MulOne(f[0]);
      AddZero(0);
    }
  }

  /** A strict pair that satisfies its equation has no weighted error. */
  lemma StrictSum(st: Structure, key: Key, U2: Instance, W2: Witness, E2: Vec)
    requires StructureOk(st) && R1cs.IsSat(st.S, key, U2, W2) && |E2| == st.left + st.right
    ensures WeightedSum(st, Z(W2.W, 1, U2.X), E2) == 0
  {
    hide Mul, Sub, Bilinear, Sparse.MultiplyVec, Sparse.Valid;
    var m := Multiply(st.S, Z(W2.W, 1, U2.X));
    var z := Z(W2.W, 1, U2.X);
    var (a, b, c) := (Sparse.MultiplyVec(st.S.A, z), Sparse.MultiplyVec(st.S.B, z), Sparse.MultiplyVec(st.S.C, z));
    forall i | 0 <= i < st.S.numCons ensures Defects(m)[i] == 0 {
      assert Mul(a[i], b[i]) == c[i];
      SubIsZero(Mul(m.a[i], m.b[i]), m.c[i]);
    }
    ZeroDefects(E2[..st.left], E2[st.left..], Defects(m));
  }

  lemma CommitLerp(key: Key, v: Vec, r1: Fe, w: Vec, r2: Fe, r: Fe)
    requires |v| == |w| <= |key.ck|
    ensures Commit(key, Lerp(v, w, r), Add(Mul(Sub(1, r), r1), Mul(r, r2)))
         == Plus(Smul(Sub(1, r), Commit(key, v, r1)), Smul(r, Commit(key, w, r2)))
  {
    hide Commit, Mul, Add, Sub, Smul, Plus, Lerp, VAdd, VScale;
    LerpIsWeighted(v, w, r);
    CommitAdd(key, VScale(Sub(1, r), v), VScale(r, w), Mul(Sub(1, r), r1), Mul(r, r2));
    CommitScale(key, Sub(1, r), v, r1);
    CommitScale(key, r, w, r2);
  }

  /** Folding two satisfying pairs gives a satisfying pair, for every weight vector E2
      and all challenges where the equality polynomial is not zero. */
  lemma FoldIsSat(st: Structure, key: Key, U1: FoldedInstance, W1: FoldedWitness, U2: Instance, W2: Witness,
                  E2: Vec, rE2: Fe, rho: Fe, rb: Fe, TOut: Fe)
    requires IsSat(st, key, U1, W1) && R1cs.IsSat(st.S, key, U2, W2) && |E2| == st.left + st.right
    requires EqAt(rho, rb) != 0
    requires TOut == Mul(Eval(StepPoly(st, U1, W1, U2, W2, E2, rho), rb), Inv(EqAt(rho, rb)))
    ensures IsSat(st, key, FoldInstance(U1, U2, Commit(key, E2, rE2), rb, TOut), FoldWitness(W1, W2, E2, rE2, rb))
  {
    hide Mul, Add, Sub, Inv, Eval, Lerp, Commit, WeightedSum, EqAt, ShapeOk, StepPoly, VAdd, VScale, Smul, Plus, Sparse.MultiplyVec;
    StrictSum(st, key, U2, W2, E2);
    HonestSumExactly(st, U1, W1, U2, W2, E2, rho, rb, TOut);
    MulOne(rho);
    AddZero(Mul(Sub(1, rho), U1.T));
    CommitLerp(key, W1.W, W1.rW, W2.W, W2.rW, rb);
    CommitLerp(key, W1.E, W1.rE, E2, rE2, rb);
  }

  /** By how much the two commitments of a running pair fail to open. */
  function GapW(key: Key, U: FoldedInstance, W: FoldedWitness): Pt
    requires |W.W| <= |key.ck|
  {
    Gap(key, U.commW, W.W, W.rW)
  }

  function GapE(key: Key, U: FoldedInstance, W: FoldedWitness): Pt
    requires |W.E| <= |key.ck|
  {
    Gap(key, U.commE, W.E, W.rE)
  }

  lemma SatParts(st: Structure, key: Key, U: FoldedInstance, W: FoldedWitness)
    requires StructureOk(st) && Fits(st, key, U, W)
    ensures IsSat(st, key, U, W)
      <==> WeightedSum(st, Z(W.W, U.u, U.X), W.E) == U.T && GapW(key, U, W) == O && GapE(key, U, W) == O
  {
    hide Gap, Commit, WeightedSum, StructureOk;
    GapIsO(key, U.commW, W.W, W.rW);
    GapIsO(key, U.commE, W.E, W.rE);
  }

  lemma GapLerp(key: Key, c: Pt, v: Vec, r1: Fe, d: Pt, w: Vec, r2: Fe, r: Fe)
    requires |v| == |w| <= |key.ck|
    ensures Gap(key, Plus(Smul(Sub(1, r), c), Smul(r, d)), Lerp(v, w, r), Add(Mul(Sub(1, r), r1), Mul(r, r2)))
         == Plus(Smul(Sub(1, r), Gap(key, c, v, r1)), Smul(r, Gap(key, d, w, r2)))
  {
    hide Gap, Mul, Add, Sub, Smul, Plus, Lerp, VAdd, VScale;
    LerpIsWeighted(v, w, r);
    GapScale(key, Sub(1, r), c, v, r1);
    GapScale(key, r, d, w, r2);
    GapAdd(key, Smul(Sub(1, r), c), VScale(Sub(1, r), v), Mul(Sub(1, r), r1), Smul(r, d), VScale(r, w), Mul(r, r2));
  }

  /** What `prove` claims and combines is true of the two pairs: the sums, weighted by the
      equality polynomial at rho. */
  ghost predicate ClaimHolds(st: Structure, U1: FoldedInstance, W1: FoldedWitness, U2: Instance, W2: Witness, E2: Vec, rho: Fe)
    requires StructureOk(st) && |W1.W| == |W2.W| == st.S.numVars && |U1.X| == |U2.X| == st.S.numIo
    requires |W1.E| == |E2| == st.left + st.right
  {
    Mul(Sub(1, rho), U1.T) == Add(Mul(Sub(1, rho), WeightedSum(st, Z(W1.W, U1.u, U1.X), W1.E)),
                                  Mul(rho, WeightedSum(st, Z(W2.W, 1, U2.X), E2)))
  }

  /** The documented guarantee, that the folded pair is satisfying if and only if both
      inputs are, does not hold at every challenge.  For any two pairs, the honestly
      folded pair is satisfying exactly when the claimed sum is true or the challenge is
      one of the points the polynomial was built from, and the gaps of the commitments
      cancel. */
  lemma HonestFoldExactly(st: Structure, key: Key, U1: FoldedInstance, W1: FoldedWitness, U2: Instance, W2: Witness,
                          E2: Vec, rE2: Fe, rho: Fe, rb: Fe, TOut: Fe)
    requires StructureOk(st) && Fits(st, key, U1, W1) && FitsStrict(st.S, key, U2, W2) && |E2| == st.left + st.right
    requires EqAt(rho, rb) != 0
    requires TOut == Mul(Eval(StepPoly(st, U1, W1, U2, W2, E2, rho), rb), Inv(EqAt(rho, rb)))
    ensures IsSat(st, key, FoldInstance(U1, U2, Commit(key, E2, rE2), rb, TOut), FoldWitness(W1, W2, E2, rE2, rb))
      <==> (ClaimHolds(st, U1, W1, U2, W2, E2, rho) || rb in [0, 2, 3, 4, 5])
           && Plus(Smul(Sub(1, rb), GapW(key, U1, W1)), Smul(rb, Gap(key, U2.commW, W2.W, W2.rW))) == O
           && Smul(Sub(1, rb), GapE(key, U1, W1)) == O
  {
    hide Mul, Add, Sub, Inv, Eval, Lerp, Commit, WeightedSum, EqAt, ShapeOk, StepPoly, VAdd, VScale, Smul, Plus, Gap, IsSat;
    HonestSumExactly(st, U1, W1, U2, W2, E2, rho, rb, TOut);
    var commE := Commit(key, E2, rE2);
    GapLerp(key, U1.commW, W1.W, W1.rW, U2.commW, W2.W, W2.rW, rb);
    GapLerp(key, U1.commE, W1.E, W1.rE, commE, E2, rE2, rb);
    GapIsO(key, commE, E2, rE2);
    SmulO(rb);
    PlusO(Smul(Sub(1, rb), GapE(key, U1, W1)));
    SatParts(st, key, FoldInstance(U1, U2, commE, rb, TOut), FoldWitness(W1, W2, E2, rE2, rb));
  }

  // --------------------------------------------------------------- runs of folds

  datatype RoMsg = Digest(pp: Fe) | AbsorbU2(U2: Instance) | AbsorbE(commE: Pt) | AbsorbPoly(poly: Vec)

  function LogTau(pp: Fe, U2: Instance): Log<RoMsg> {
    [Said(Digest(pp)), Said(AbsorbU2(U2))]
  }

  function LogRho(pp: Fe, U2: Instance, commE: Pt): Log<RoMsg> {
    LogTau(pp, U2) + [Squeezed, Said(AbsorbE(commE))]
  }

  function LogRb(pp: Fe, U2: Instance, nifs: Nifs): Log<RoMsg> {
    LogRho(pp, U2, nifs.commE) + [Squeezed, Said(AbsorbPoly(nifs.poly))]
  }

  datatype Pair = Pair(U: FoldedInstance, W: FoldedWitness)

  /** One fold's input: a strict pair and the blinding of the weight vector. */
  datatype Step = Step(U: Instance, W: Witness, rE: Fe)

  predicate StepFits(st: Structure, key: Key, s: Step) {
    FitsStrict(st.S, key, s.U, s.W)
  }

  /** `Panic` is the `unwrap` on the inverse of a zero. */
  datatype Outcome<+T> = Ok(value: T) | InvalidSumcheckProof | Panic

  function MessageOf(st: Structure, key: Key, f: Oracle<RoMsg>, pp: Fe, p: Pair, s: Step): (n: Nifs)
    requires StructureOk(st) && Fits(st, key, p.U, p.W) && StepFits(st, key, s)
    ensures |n.poly| == 6
  {
    var E2 := Split(f(LogTau(pp, s.U)), st.left, st.right);
    var commE := Commit(key, E2, s.rE);
    Nifs(commE, StepPoly(st, p.U, p.W, s.U, s.W, E2, f(LogRho(pp, s.U, commE))))
  }

  function ProveSpec(st: Structure, key: Key, f: Oracle<RoMsg>, pp: Fe, p: Pair, s: Step): (o: Outcome<(Nifs, Pair)>)
    requires StructureOk(st) && Fits(st, key, p.U, p.W) && StepFits(st, key, s)
    ensures o.Panic? || (o.Ok? && Fits(st, key, o.value.1.U, o.value.1.W))
  {
    hide Lerp, EqAt, Eval, Inv, Split, StepPoly;
    var E2 := Split(f(LogTau(pp, s.U)), st.left, st.right);
    var n := MessageOf(st, key, f, pp, p, s);
    var rho := f(LogRho(pp, s.U, n.commE));
    var rb := f(LogRb(pp, s.U, n));
    if EqAt(rho, rb) == 0 then Panic
    else
      var TOut := Mul(Eval(n.poly, rb), Inv(EqAt(rho, rb)));
      Outcome.Ok((n, Pair(FoldInstance(p.U, s.U, n.commE, rb, TOut), FoldWitness(p.W, s.W, E2, s.rE, rb))))
  }

  function VerifySpec(f: Oracle<RoMsg>, pp: Fe, U1: FoldedInstance, U2: Instance, n: Nifs): Outcome<FoldedInstance>
    requires |n.poly| >= 1 && |U1.X| == |U2.X|
  {
    var rho := f(LogRho(pp, U2, n.commE));
    var rb := f(LogRb(pp, U2, n));
    if Add(n.poly[0], Sum(n.poly)) != Mul(Sub(1, rho), U1.T) then InvalidSumcheckProof
    else if EqAt(rho, rb) == 0 then Panic
    else Outcome.Ok(FoldInstance(U1, U2, n.commE, rb, Mul(Eval(n.poly, rb), Inv(EqAt(rho, rb)))))
  }

  lemma {:induction false} SumIsValueAtOne(p: Vec)
    ensures Sum(p) == Eval(p, 1)
  {
    hide Mul, Add;
    if |p| > 0 {
      SumIsValueAtOne(p[1..]);
      MulOne(Eval(p[1..], 1));
    }
  }

  lemma ValueAtZero(p: Vec)
    requires |p| >= 1
    ensures Eval(p, 0) == p[0]
  {
    hide Mul, Add;
    MulOne(Eval(p[1..], 0));
    AddZero(p[0]);
  }

  /** Whatever the pairs, the verifier accepts the prover's message and computes the
      same instance. */
  lemma VerifierAgrees(st: Structure, key: Key, f: Oracle<RoMsg>, pp: Fe, p: Pair, s: Step)
    requires StructureOk(st) && Fits(st, key, p.U, p.W) && StepFits(st, key, s)
    ensures var o := ProveSpec(st, key, f, pp, p, s);
      var v := VerifySpec(f, pp, p.U, s.U, MessageOf(st, key, f, pp, p, s));
      if o.Ok? then o.value.0 == MessageOf(st, key, f, pp, p, s) && v == Outcome.Ok(o.value.1.U) else v == Panic
  {
    hide Mul, Add, Sub, Inv, Eval, Sum, Split, FoldInstance, FoldWitness, EqAt, Commit, StepPoly, ShapeOk;
    var n := MessageOf(st, key, f, pp, p, s);
    var rho := f(LogRho(pp, s.U, n.commE));
    SumIsValueAtOne(n.poly);
    ValueAtZero(n.poly);
    StepPolyEnds(st, p.U, p.W, s.U, s.W, Split(f(LogTau(pp, s.U)), st.left, st.right), rho);
  }

  lemma StepPolyEnds(st: Structure, U1: FoldedInstance, W1: FoldedWitness, U2: Instance, W2: Witness, E2: Vec, rho: Fe)
    requires StructureOk(st) && |W1.W| == |W2.W| == st.S.numVars && |U1.X| == |U2.X| == st.S.numIo
    requires |W1.E| == |E2| == st.left + st.right
    ensures var p := StepPoly(st, U1, W1, U2, W2, E2, rho);
      Add(Eval(p, 0), Eval(p, 1)) == Mul(Sub(1, rho), U1.T)
  {
    hide Mul, Add, Sub, Eval, SentPoly, Multiply, RoundAt, ShapeOk;
    var (m1, m2) := (Multiply(st.S, Z(W1.W, U1.u, U1.X)), Multiply(st.S, Z(W2.W, 1, U2.X)));
    SentPolyAt(Mul(Sub(1, rho), U1.T), rho, W1.E[..st.left], E2[..st.left], W1.E[st.left..], E2[st.left..], m1, m2);
    AddSub(Eval(StepPoly(st, U1, W1, U2, W2, E2, rho), 0), Mul(Sub(1, rho), U1.T));
  }

  function Default(st: Structure): Pair {
    Pair(FoldedInstance(O, O, 0, 0, Zeros(st.S.numIo)),
         FoldedWitness(Zeros(st.S.numVars), 0, Zeros(st.left + st.right), 0))
  }

  lemma {:induction false} ZeroWeights(n: nat, f: Vec, d: Vec)
    requires |d| == n * |f|
    ensures Bilinear(Zeros(n), f, d) == 0
    decreases |f|
  {
    hide Mul, Add, Dot;
    if |f| > 0 {
      BlockSize(n, |f|);
      ZeroWeights(n, f[1..], d[n..]);
      DotZeros(n, d[..n]);
      MulOne(f[0]);
      AddZero(0);
    }
  }

  lemma DefaultIsSat(st: Structure, key: Key)
    requires StructureOk(st) && st.S.numVars <= |key.ck| && st.left + st.right <= |key.ck|
    ensures IsSat(st, key, Default(st).U, Default(st).W)
  {
    hide Commit, WeightedSum, ShapeOk;
    CommitZeros(key, st.S.numVars);
    CommitZeros(key, st.left + st.right);
    ZeroSum(st);
  }

  /** A running pair of zeros that claims the sum 1 is not satisfying; for an oracle that
      answers 0, `prove` folds it with any strict pair into a satisfying pair. */
  lemma OneChallengeIsNotEnough(st: Structure, key: Key, pp: Fe, s: Step)
    requires StructureOk(st) && st.S.numVars <= |key.ck| && st.left + st.right <= |key.ck| && StepFits(st, key, s)
    ensures var p := Pair(Default(st).U.(T := 1), Default(st).W);
      && Fits(st, key, p.U, p.W) && !IsSat(st, key, p.U, p.W)
      && var o := ProveSpec(st, key, _ => 0, pp, p, s); o.Ok? && IsSat(st, key, o.value.1.U, o.value.1.W)
  {
    hide Mul, Add, Sub, Inv, Eval, EqAt, ShapeOk, StepPoly, WeightedSum, Commit, Gap, FoldInstance, FoldWitness, Smul, Plus,
      Split, IsSat;
    var p := Pair(Default(st).U.(T := 1), Default(st).W);
    ZeroSum(st);
    DefaultIsSat(st, key);
    SatParts(st, key, Default(st).U, Default(st).W);
    SatParts(st, key, p.U, p.W);
    EqAtZero(0);
    AddZero(1);
    var E2 := Split(0, st.left, st.right);
    var TOut := Mul(Eval(StepPoly(st, p.U, p.W, s.U, s.W, E2, 0), 0), Inv(EqAt(0, 0)));
    SmulSmall(Gap(key, s.U.commW, s.W.W, s.W.rW));
    SmulO(Sub(1, 0));
    PlusO(O);
    HonestFoldExactly(st, key, p.U, p.W, s.U, s.W, E2, s.rE, 0, 0, TOut);
  }

  lemma ZeroSum(st: Structure)
    requires StructureOk(st)
    ensures var (U, W) := (Default(st).U, Default(st).W); WeightedSum(st, Z(W.W, U.u, U.X), W.E) == 0
  {
    hide Multiply, Bilinear, Defects, ShapeOk;
    var (U, W) := (Default(st).U, Default(st).W);
    assert W.E[..st.left] == Zeros(st.left);
    ZeroWeights(st.left, W.E[st.left..], Defects(Multiply(st.S, Z(W.W, U.u, U.X))));
  }

  /** The running pair after a list of folds, unless a fold met a zero. */
  function ProverRun(st: Structure, key: Key, f: Oracle<RoMsg>, pp: Fe, steps: seq<Step>): (o: Outcome<Pair>)
    requires StructureOk(st) && st.S.numVars <= |key.ck| && st.left + st.right <= |key.ck|
    requires forall i :: 0 <= i < |steps| ==> StepFits(st, key, steps[i])
    ensures o.Panic? || (o.Ok? && Fits(st, key, o.value.U, o.value.W))
  {
    if |steps| == 0 then Outcome.Ok(Default(st))
    else
      var o := ProverRun(st, key, f, pp, steps[..|steps| - 1]);
      if o.Panic? then Panic
      else
        var q := ProveSpec(st, key, f, pp, o.value, steps[|steps| - 1]);
        if q.Panic? then Panic else Outcome.Ok(q.value.1)
  }

  /** The verifier's running instance, from public inputs and received messages. */
  function VerifierRun(st: Structure, f: Oracle<RoMsg>, pp: Fe, publics: seq<Instance>, ns: seq<Nifs>): (o: Outcome<FoldedInstance>)
    requires |publics| == |ns| && forall i :: 0 <= i < |ns| ==> |publics[i].X| == st.S.numIo && |ns[i].poly| >= 1
    ensures o.Ok? ==> |o.value.X| == st.S.numIo
  {
    if |ns| == 0 then Outcome.Ok(Default(st).U)
    else
      var n := |ns| - 1;
      var o := VerifierRun(st, f, pp, publics[..n], ns[..n]);
      if o.Ok? then VerifySpec(f, pp, o.value, publics[n], ns[n]) else o
  }

  /** The messages of the prover's run; what follows a panic is arbitrary. */
  ghost predicate Sent(st: Structure, key: Key, f: Oracle<RoMsg>, pp: Fe, steps: seq<Step>, ns: seq<Nifs>)
    requires StructureOk(st) && st.S.numVars <= |key.ck| && st.left + st.right <= |key.ck|
    requires forall i :: 0 <= i < |steps| ==> StepFits(st, key, steps[i])
  {
    && |ns| == |steps|
    && forall i :: 0 <= i < |ns| ==>
         && |ns[i].poly| >= 1
         && var o := ProverRun(st, key, f, pp, steps[..i]);
            o.Ok? ==> ns[i] == MessageOf(st, key, f, pp, o.value, steps[i])
  }

  /** After any number of folds of any pairs the verifier has accepted every message and
      holds the prover's running instance, or has panicked because the prover did. */
  lemma {:induction false} VerifierFollowsRun(st: Structure, key: Key, f: Oracle<RoMsg>, pp: Fe, steps: seq<Step>,
                                              publics: seq<Instance>, ns: seq<Nifs>)
    requires StructureOk(st) && st.S.numVars <= |key.ck| && st.left + st.right <= |key.ck|
    requires forall i :: 0 <= i < |steps| ==> StepFits(st, key, steps[i])
    requires |publics| == |steps| && forall i :: 0 <= i < |steps| ==> publics[i] == steps[i].U
    requires Sent(st, key, f, pp, steps, ns)
    ensures forall i :: 0 <= i < |ns| ==> |publics[i].X| == st.S.numIo
    ensures var o := ProverRun(st, key, f, pp, steps);
      VerifierRun(st, f, pp, publics, ns) == if o.Ok? then Outcome.Ok(o.value.U) else Panic
  {
    hide ProveSpec, VerifySpec, MessageOf, StructureOk, Default, Fits;
    if |steps| > 0 {
      var k := |steps| - 1;
      forall i | 0 <= i < k ensures steps[..k][..i] == steps[..i] {}
      VerifierFollowsRun(st, key, f, pp, steps[..k], publics[..k], ns[..k]);
      var o := ProverRun(st, key, f, pp, steps[..k]);
      if o.Ok? { VerifierAgrees(st, key, f, pp, o.value, steps[k]); }
    }
  }

  /** From the default pair, every number of folds of satisfying strict pairs, under
      every oracle, keeps the running pair satisfying. */
  lemma {:induction false} RunKeepsSat(st: Structure, key: Key, f: Oracle<RoMsg>, pp: Fe, steps: seq<Step>)
    requires StructureOk(st) && st.S.numVars <= |key.ck| && st.left + st.right <= |key.ck|
    requires forall i :: 0 <= i < |steps| ==> StepFits(st, key, steps[i]) && R1cs.IsSat(st.S, key, steps[i].U, steps[i].W)
    ensures var o := ProverRun(st, key, f, pp, steps);
      o.Ok? ==> IsSat(st, key, o.value.U, o.value.W)
  {
    hide IsSat, R1cs.IsSat, FoldInstance, FoldWitness, ShapeOk, Split, StepPoly, Commit, EqAt, Eval, Inv, LogTau, LogRho, LogRb;
    if |steps| == 0 {
      DefaultIsSat(st, key);
    } else {
      var k := |steps| - 1;
      RunKeepsSat(st, key, f, pp, steps[..k]);
      var o := ProverRun(st, key, f, pp, steps[..k]);
      if o.Ok? {
        StepKeepsSat(st, key, f, pp, o.value, steps[k]);
      }
    }
  }

  lemma StepKeepsSat(st: Structure, key: Key, f: Oracle<RoMsg>, pp: Fe, p: Pair, s: Step)
    requires StructureOk(st) && Fits(st, key, p.U, p.W) && StepFits(st, key, s)
    requires IsSat(st, key, p.U, p.W) && R1cs.IsSat(st.S, key, s.U, s.W)
    ensures var o := ProveSpec(st, key, f, pp, p, s);
      o.Ok? ==> IsSat(st, key, o.value.1.U, o.value.1.W)
  {
    hide IsSat, R1cs.IsSat, FoldInstance, FoldWitness, ShapeOk, Split, StepPoly, Commit, EqAt, Eval, Inv, LogTau, LogRho, LogRb;
    var E2 := Split(f(LogTau(pp, s.U)), st.left, st.right);
    var n := MessageOf(st, key, f, pp, p, s);
    var rho := f(LogRho(pp, s.U, n.commE));
    var rb := f(LogRb(pp, s.U, n));
    if EqAt(rho, rb) != 0 {
      FoldIsSat(st, key, p.U, p.W, s.U, s.W, E2, s.rE, rho, rb, Mul(Eval(n.poly, rb), Inv(EqAt(rho, rb))));
    }
  }

  // ------------------------------------------------------------ prover, verifier

  method Prove(key: Key, f: Oracle<RoMsg>, pp: Fe, st: Structure, p: Pair, s: Step) returns (o: Outcome<(Nifs, Pair)>)
    requires StructureOk(st) && Fits(st, key, p.U, p.W) && StepFits(st, key, s)
    ensures o == ProveSpec(st, key, f, pp, p, s)
  {
    hide Mul, Add, Sub, Inv, Eval, Split, FoldInstance, FoldWitness, EqAt, Commit, Multiply, RoundAt, FromEvals, ShapeOk;
    var ro := new Transcript(f);
    ro.Absorb(Digest(pp));
    ro.Absorb(AbsorbU2(s.U));
    assert ro.log == LogTau(pp, s.U);
    var tau := ro.Squeeze();
    var E2 := SplitEvals(tau, st.left, st.right);
    var commE := Commit(key, E2, s.rE);
    ro.Absorb(AbsorbE(commE));
    assert ro.log == LogRho(pp, s.U, commE);
    var rho := ro.Squeeze();
    var T := Mul(Sub(1, rho), p.U.T);
    var m1 := Multiply(st.S, Z(p.W.W, p.U.u, p.U.X));
    var m2 := Multiply(st.S, Z(s.W.W, 1, s.U.X));
    var v := ProveHelper(rho, st.left, st.right, p.W.E, m1, E2, m2);
    var poly := FromEvalsByElimination([v.v0, Sub(T, v.v0), v.v2, v.v3, v.v4, v.v5]);
    ro.Absorb(AbsorbPoly(poly));
    assert ro.log == LogRb(pp, s.U, Nifs(commE, poly));
    var rb := ro.Squeeze();
    var eq := EqAt(rho, rb);
    if eq == 0 {
      return Panic;
    }
    var TOut := Mul(Eval(poly, rb), Inv(eq));
    o := Outcome.Ok((Nifs(commE, poly), Pair(FoldInstance(p.U, s.U, commE, rb, TOut), FoldWitness(p.W, s.W, E2, s.rE, rb))));
  }

  method Verify(n: Nifs, f: Oracle<RoMsg>, pp: Fe, U1: FoldedInstance, U2: Instance) returns (o: Outcome<FoldedInstance>)
    requires |n.poly| >= 1 && |U1.X| == |U2.X|
    ensures o == VerifySpec(f, pp, U1, U2, n)
  {
    hide Mul, Add, Sub, Inv, Eval, FoldInstance, EqAt, Sum;
    var ro := new Transcript(f);
    ro.Absorb(Digest(pp));
    ro.Absorb(AbsorbU2(U2));
    var tau := ro.Squeeze();
    ro.Absorb(AbsorbE(n.commE));
    assert ro.log == LogRho(pp, U2, n.commE);
    var rho := ro.Squeeze();
    var T := Mul(Sub(1, rho), U1.T);
    if Add(n.poly[0], Sum(n.poly)) != T {
      return InvalidSumcheckProof;
    }
    ro.Absorb(AbsorbPoly(n.poly));
    assert ro.log == LogRb(pp, U2, n);
    var rb := ro.Squeeze();
    var eq := EqAt(rho, rb);
    if eq == 0 {
      return Panic;
    }
    o := Outcome.Ok(FoldInstance(U1, U2, n.commE, rb, Mul(Eval(n.poly, rb), Inv(eq))));
  }
}
