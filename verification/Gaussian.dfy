/** Gaussian elimination without row exchanges, as used to interpolate: on a system
    built from distinct points no pivot is ever zero, and the result is the
    interpolating polynomial. */
module Gaussian {
  import opened PrimeField
  import opened FieldLaws
  import opened Vectors
  import opened Polynomials
  import opened Interpolation

  // ------------------------------------------------------------------ row algebra

  /** a - f * b from position lo on. */
  function RowSub(a: Vec, b: Vec, f: Fe, lo: nat): (c: Vec)
    requires |a| == |b|
    ensures |c| == |a|
  {
    seq(|a|, k requires 0 <= k < |a| => if k < lo then a[k] else Sub(a[k], Mul(f, b[k])))
  }

  /** A row of an augmented matrix, read as an equation on c. */
  predicate Solves(row: Vec, c: Vec)
    requires |row| == |c| + 1
  {
    Dot(row[..|c|], c) == row[|c|]
  }

  lemma {:induction false} DotRowSub(a: Vec, b: Vec, f: Fe, c: Vec)
    requires |a| == |b| == |c|
    ensures Dot(RowSub(a, b, f, 0), c) == Sub(Dot(a, c), Mul(f, Dot(b, c)))
  {
    hide Mul, Add, Sub;
    if |a| == 0 {
      MulOne(f);
      AddZero(0);
    } else {
      assert RowSub(a, b, f, 0)[1..] == RowSub(a[1..], b[1..], f, 0);
      DotRowSub(a[1..], b[1..], f, c[1..]);
      DotSubStep(a[0], b[0], c[0], f, Dot(a[1..], c[1..]), Dot(b[1..], c[1..]));
    }
  }

  lemma DotSubStep(a: Fe, b: Fe, c: Fe, f: Fe, x: Fe, y: Fe)
    ensures Add(Mul(Sub(a, Mul(f, b)), c), Sub(x, Mul(f, y))) == Sub(Add(Mul(a, c), x), Mul(f, Add(Mul(b, c), y)))
  {
    hide *;
    Hom();
    ROf(a); ROf(b); ROf(c); ROf(f); ROf(x); ROf(y);
    DotSubStepI(a, b, c, f, x, y);
  }

  lemma DotSubStepI(a: int, b: int, c: int, f: int, x: int, y: int)
    ensures IAdd(IMul(ISub(a, IMul(f, b)), c), ISub(x, IMul(f, y))) == ISub(IAdd(IMul(a, c), x), IMul(f, IAdd(IMul(b, c), y)))
  {
  }

  lemma {:induction false} DotSingle(a: Vec, c: Vec, k: nat)
    requires |a| == |c| && k < |a| && forall i :: 0 <= i < |a| && i != k ==> a[i] == 0 || c[i] == 0
    ensures Dot(a, c) == Mul(a[k], c[k])
  {
    hide Mul, Add;
    if k == 0 {
      DotNone(a[1..], c[1..]);
      AddZero(Mul(a[0], c[0]));
    } else {
      DotSingle(a[1..], c[1..], k - 1);
      NoZeroDivisors(a[0], c[0]);
      AddZero(Mul(a[k], c[k]));
    }
  }

  lemma {:induction false} DotNone(a: Vec, c: Vec)
    requires |a| == |c| && forall i :: 0 <= i < |a| ==> a[i] == 0 || c[i] == 0
    ensures Dot(a, c) == 0
  {
    hide Mul, Add;
    if |a| > 0 {
      DotNone(a[1..], c[1..]);
      NoZeroDivisors(a[0], c[0]);
      AddZero(0);
    }
  }

  /** Where the subtracted row is zero, skipping those positions changes nothing. */
  lemma RowSubFrom(a: Vec, b: Vec, f: Fe, lo: nat)
    requires |a| == |b| && forall k :: 0 <= k < lo && k < |b| ==> b[k] == 0
    ensures RowSub(a, b, f, lo) == RowSub(a, b, f, 0)
  {
    hide Mul, Sub;
    forall k | 0 <= k < |a| ensures RowSub(a, b, f, lo)[k] == RowSub(a, b, f, 0)[k] {
      if k < lo {
        MulOne(f);
        AddZero(a[k]);
      }
    }
  }

  /** A row operation keeps a solution of both rows. */
  lemma SolvesKept(a: Vec, b: Vec, f: Fe, c: Vec)
    requires |a| == |b| == |c| + 1 && Solves(a, c) && Solves(b, c)
    ensures Solves(RowSub(a, b, f, 0), c)
  {
    hide Mul, Sub, Dot;
    var n := |c|;
    assert RowSub(a, b, f, 0)[..n] == RowSub(a[..n], b[..n], f, 0);
    DotRowSub(a[..n], b[..n], f, c);
  }

  // ----------------------------------------------------------------- the system

  /** dual[r] sees nothing of the rows above r, something of row r, and no column past r:
      the leading blocks of the matrix are invertible. */
  ghost predicate DualOk(m: seq<Vec>, dual: seq<Vec>) {
    && |dual| == |m|
    && (forall r :: 0 <= r < |m| ==> |m[r]| == |m| + 1 && |dual[r]| == |m|)
    && (forall r, k :: 0 <= r < k < |m| ==> dual[r][k] == 0)
    && (forall i, r :: 0 <= i < r < |m| ==> Dot(m[i][..|m|], dual[r]) == 0)
    && (forall r :: 0 <= r < |m| ==> Dot(m[r][..|m|], dual[r]) != 0)
  }

  ghost predicate AllSolve(m: seq<Vec>, c: Vec) {
    |c| == |m| && forall r :: 0 <= r < |m| ==> |m[r]| == |m| + 1 && Solves(m[r], c)
  }

  /** Nothing below the diagonal in the columns before i. */
  ghost predicate ZeroBelow(m: seq<Vec>, i: nat) {
    forall t, k :: 0 <= k < i && k < t < |m| && k < |m[t]| ==> m[t][k] == 0
  }

  ghost predicate Forward(m: seq<Vec>, c: Vec, dual: seq<Vec>, i: nat) {
    AllSolve(m, c) && DualOk(m, dual) && ZeroBelow(m, i)
  }

  lemma PivotNonzero(m: seq<Vec>, c: Vec, dual: seq<Vec>, i: nat)
    requires Forward(m, c, dual, i) && i < |m|
    ensures |m[i]| == |m| + 1 && m[i][i] != 0
  {
    hide Mul, Dot;
    DotSingle(m[i][..|m|], dual[i], i);
    MulOne(dual[i][i]);
  }

  /** Subtracting a multiple of row i from a later row keeps the invariant. */
  lemma ForwardStep(m: seq<Vec>, c: Vec, dual: seq<Vec>, i: nat, t: nat, f: Fe)
    requires Forward(m, c, dual, i) && i < t < |m| && |m[i]| == |m[t]| == |m| + 1
    ensures Forward(m[t := RowSub(m[t], m[i], f, 0)], c, dual, i)
  {
    hide Mul, Sub, Dot, Solves;
    var n := |m|;
    var row := RowSub(m[t], m[i], f, 0);
    SolvesKept(m[t], m[i], f, c);
    assert row[..n] == RowSub(m[t][..n], m[i][..n], f, 0);
    forall r | t <= r < n
      ensures Dot(row[..n], dual[r]) == Dot(m[t][..n], dual[r])
    {
      DotRowSub(m[t][..n], m[i][..n], f, dual[r]);
      MulOne(f);
      AddZero(Dot(m[t][..n], dual[r]));
    }
    forall k | 0 <= k < i ensures row[k] == 0 {
      MulOne(f);
      AddZero(0);
    }
  }

  method DivF(a: Fe, b: Fe) returns (q: Fe)
    requires b != 0
    ensures Mul(q, b) == a
  {
    hide Mul, Inv;
    MulInv(b);
    q := Mul(a, Inv(b));
    MulAssoc(a, Inv(b), b);
    MulOne(a);
  }

  /** matrix[t][k] -= factor * matrix[i][k] for k from lo up. */
  method SubtractRow(matrix: array<Vec>, t: nat, i: nat, factor: Fe, lo: nat)
    requires i < matrix.Length && t < matrix.Length && i != t
    requires |matrix[i]| == |matrix[t]| && lo <= |matrix[t]|
    modifies matrix
    ensures matrix[..] == old(matrix[..])[t := RowSub(old(matrix[t]), old(matrix[i]), factor, lo)]
  {
    hide Mul, Sub;
    var row := matrix[t];
    for k := lo to |row|
      invariant |row| == |matrix[t]| && matrix[..] == old(matrix[..])
      invariant forall j :: 0 <= j < k ==> row[j] == RowSub(old(matrix[t]), old(matrix[i]), factor, lo)[j]
      invariant forall j :: k <= j < |row| ==> row[j] == old(matrix[t])[j]
    {
      row := row[k := Sub(row[k], Mul(factor, matrix[i][k]))];
    }
    matrix[t] := row;
    assert row == RowSub(old(matrix[t]), old(matrix[i]), factor, lo);
  }

  lemma ClearedEntry(a: Vec, b: Vec, f: Fe, i: nat)
    requires |a| == |b| && i < |a| && Mul(f, b[i]) == a[i]
    ensures RowSub(a, b, f, 0)[i] == 0
  {
    hide Mul;
    SubIsZero(a[i], Mul(f, b[i]));
  }

  /** Column i below row i is cleared. */
  method ClearBelow(matrix: array<Vec>, i: nat, ghost c: Vec, ghost dual: seq<Vec>)
    requires i + 1 < matrix.Length && Forward(matrix[..], c, dual, i)
    modifies matrix
    ensures Forward(matrix[..], c, dual, i + 1)
  {
    hide Mul, Sub, Dot, DualOk, RowSub, ZeroBelow;
    for j := i to matrix.Length - 1
      invariant Forward(matrix[..], c, dual, i) && AllSolve(matrix[..], c)
      invariant forall t :: i < t <= j ==> |matrix[t]| == matrix.Length + 1 && matrix[t][i] == 0
    {
      ghost var m := matrix[..];
      PivotNonzero(m, c, dual, i);
      assert |m[j + 1]| == |m| + 1;
      if matrix[i][i] != 0 {
        var factor := DivF(matrix[j + 1][i], matrix[i][i]);
        ForwardStep(m, c, dual, i, j + 1, factor);
        ZeroRow(m, i);
        RowSubFrom(m[j + 1], m[i], factor, i);
        ClearedEntry(m[j + 1], m[i], factor, i);
        SubtractRow(matrix, j + 1, i, factor, i);
      }
    }
    ZeroBelowMore(matrix[..], i);
  }

  lemma ZeroRow(m: seq<Vec>, i: nat)
    requires ZeroBelow(m, i) && i < |m|
    ensures forall k :: 0 <= k < i && k < |m[i]| ==> m[i][k] == 0
  {
  }

  lemma ZeroBelowMore(m: seq<Vec>, i: nat)
    requires ZeroBelow(m, i) && forall t :: i < t < |m| ==> i < |m[t]| && m[t][i] == 0
    ensures ZeroBelow(m, i + 1)
  {
  }

  /** Triangular, nonzero diagonal, and the columns from i on cleared above the diagonal. */
  ghost predicate Backward(m: seq<Vec>, c: Vec, i: nat) {
    && AllSolve(m, c) && ZeroBelow(m, |m|)
    && (forall t :: 0 <= t < |m| ==> m[t][t] != 0)
    && forall t, k :: 0 <= t < k < |m| && i <= k ==> m[t][k] == 0
  }

  lemma ForwardDone(m: seq<Vec>, c: Vec, dual: seq<Vec>)
    requires |m| >= 1 && Forward(m, c, dual, |m| - 1)
    ensures Backward(m, c, |m|)
  {
    hide DualOk, Solves, Dot;
    forall t | 0 <= t < |m| ensures m[t][t] != 0 {
      ForwardLess(m, c, dual, t);
      PivotNonzero(m, c, dual, t);
    }
  }

  lemma ForwardLess(m: seq<Vec>, c: Vec, dual: seq<Vec>, t: nat)
    requires t < |m| && Forward(m, c, dual, |m| - 1)
    ensures Forward(m, c, dual, t)
  {
    hide DualOk, AllSolve;
  }

  /** Subtracting a multiple of row i, which only has its diagonal left, from a row above. */
  lemma BackwardStep(m: seq<Vec>, c: Vec, i: nat, t: nat, f: Fe)
    requires Backward(m, c, i + 1) && t < i < |m| && |m[i]| == |m[t]| == |m| + 1 && Mul(f, m[i][i]) == m[t][i]
    ensures Backward(m[t := RowSub(m[t], m[i], f, 0)], c, i + 1)
    ensures RowSub(m[t], m[i], f, 0)[i] == 0
  {
    hide Mul, Sub, Dot, Solves;
    SolvesKept(m[t], m[i], f, c);
    ClearedEntry(m[t], m[i], f, i);
    forall k | 0 <= k < |m| && k != i ensures RowSub(m[t], m[i], f, 0)[k] == m[t][k] {
      assert m[i][k] == 0;
      MulOne(f);
      AddZero(m[t][k]);
    }
  }

  /** Column i above row i is cleared. */
  method ClearAbove(matrix: array<Vec>, i: nat, ghost c: Vec)
    requires 1 <= i < matrix.Length && Backward(matrix[..], c, i + 1)
    modifies matrix
    ensures Backward(matrix[..], c, i)
  {
    hide Mul, Sub, Dot, Solves, ZeroBelow, RowSub;
    if matrix[i][i] != 0 {
      var j := i;
      while j > 0
        invariant 0 <= j <= i && Backward(matrix[..], c, i + 1)
        invariant forall t :: j <= t < i ==> matrix[t][i] == 0
      {
        ghost var m := matrix[..];
        var factor := DivF(matrix[j - 1][i], matrix[i][i]);
        BackwardStep(m, c, i, j - 1, factor);
        SubtractRow(matrix, j - 1, i, factor, 0);
        j := j - 1;
      }
    }
  }

  /** The one solution, read off the diagonal. */
  method GaussianElimination(matrix: array<Vec>, ghost c: Vec, ghost dual: seq<Vec>) returns (result: Vec)
    requires matrix.Length >= 1 && Forward(matrix[..], c, dual, 0)
    modifies matrix
    ensures result == c
  {
    hide Mul, Dot, Solves, DualOk, ZeroBelow, Forward, Backward;
    var size := matrix.Length;
    for i := 0 to size - 1
      invariant Forward(matrix[..], c, dual, i)
    {
      ClearBelow(matrix, i, c, dual);
    }
    ForwardDone(matrix[..], c, dual);
    var i := size - 1;
    while i >= 1
      invariant 0 <= i < size && Backward(matrix[..], c, i + 1)
    {
      ClearAbove(matrix, i, c);
      i := i - 1;
    }
    result := [];
    SolutionSize(matrix[..], c);
    for r := 0 to size
      invariant |result| == r && Backward(matrix[..], c, 1)
      invariant |c| == size && forall k :: 0 <= k < r ==> result[k] == c[k]
    {
      DiagonalRow(matrix[..], c, r);
      var x := DivF(matrix[r][size], matrix[r][r]);
      MulComm(matrix[r][r], c[r]);
      MulCancel(x, c[r], matrix[r][r]);
      result := result + [x];
    }
  }

  lemma SolutionSize(m: seq<Vec>, c: Vec)
    requires Backward(m, c, 1)
    ensures |c| == |m|
  {
  }

  lemma DiagonalRow(m: seq<Vec>, c: Vec, r: nat)
    requires Backward(m, c, 1) && r < |m|
    ensures |c| == |m| && |m[r]| == |m| + 1 && m[r][r] != 0 && Mul(m[r][r], c[r]) == m[r][|m|]
  {
    hide Mul, Dot;
    DotSingle(m[r][..|m|], c, r);
  }

  // -------------------------------------------------------------- interpolation

  function PowersRow(x: Fe, n: nat): (p: Vec)
    ensures |p| == n
  {
    seq(n, k requires 0 <= k < n => Pow(x, k))
  }

  lemma {:induction false} DotPowers(x: Fe, k: nat, c: Vec, p: Vec)
    requires |p| == |c| && forall i :: 0 <= i < |p| ==> p[i] == Pow(x, k + i)
    ensures Dot(p, c) == Mul(Pow(x, k), Eval(c, x))
    decreases |c|
  {
    hide Mul, Add, Pow;
    if |c| == 0 {
      MulOne(Pow(x, k));
    } else {
      forall i | 0 <= i < |p| - 1 ensures p[1..][i] == Pow(x, k + 1 + i) {
        assert p[1..][i] == p[i + 1] && k + (i + 1) == k + 1 + i;
      }
      DotPowers(x, k + 1, c[1..], p[1..]);
      PowSnoc(x, k);
      assert p[0] == Pow(x, k + 0);
      MulAdd(Pow(x, k), c[0], Mul(x, Eval(c[1..], x)));
      MulAssoc(Pow(x, k), x, Eval(c[1..], x));
    }
  }

  /** A row of powers applied to a coefficient vector evaluates it. */
  lemma PowersRowEvaluates(x: Fe, c: Vec)
    ensures Dot(PowersRow(x, |c|), c) == Eval(c, x)
  {
    hide Mul, Eval, Dot;
    DotPowers(x, 0, c, PowersRow(x, |c|));
    assert Pow(x, 0) == 1;
    MulOne(Eval(c, x));
  }

  function Padded(f: Vec, n: nat): (g: Vec)
    requires |f| <= n
    ensures |g| == n
  {
    f + Zeros(n - |f|)
  }

  lemma PaddedValue(f: Vec, n: nat, x: Fe)
    requires |f| <= n
    ensures Eval(Padded(f, n), x) == Eval(f, x)
  {
    hide Mul, Add, Eval, Zeros;
    EvalConcat(f, Zeros(n - |f|), x);
    EvalZeros(n - |f|, x);
    MulOne(Pow(x, |f|));
    AddZero(Eval(f, x));
  }

  function Duals(xs: seq<Fe>): (d: seq<Vec>)
    ensures |d| == |xs|
  {
    seq(|xs|, r requires 0 <= r < |xs| => Padded(Vanishing(xs[..r]), |xs|))
  }

  ghost predicate IsSystem(m: seq<Vec>, xs: seq<Fe>, ys: Vec) {
    |m| == |xs| == |ys| && forall r :: 0 <= r < |m| ==> m[r] == PowersRow(xs[r], |xs|) + [ys[r]]
  }

  /** The system of distinct points starts the elimination well. */
  lemma SystemStarts(m: seq<Vec>, xs: seq<Fe>, ys: Vec)
    requires IsSystem(m, xs, ys) && Distinct(xs)
    ensures Forward(m, Interpolate(xs, ys), Duals(xs), 0)
  {
    hide Eval, Dot, Vanishing, Interpolate, PowersRow;
    var (n, c, d) := (|xs|, Interpolate(xs, ys), Duals(xs));
    forall r | 0 <= r < n ensures m[r][..n] == PowersRow(xs[r], n) && Solves(m[r], c) {
      PowersRowEvaluates(xs[r], c);
      InterpolateMeets(xs, ys, r);
    }
    forall i, r | 0 <= i <= r < n ensures Dot(m[i][..n], d[r]) == 0 <==> i < r {
      PowersRowEvaluates(xs[i], d[r]);
      PaddedValue(Vanishing(xs[..r]), n, xs[i]);
      VanishingRoots(xs[..r], xs[i]);
      if i < r { assert xs[i] == xs[..r][i]; }
    }
  }

  method BuildRow(x: Fe, y: Fe, n: nat) returns (row: Vec)
    requires n >= 2
    ensures row == PowersRow(x, n) + [y]
  {
    hide Mul, Pow;
    PowSnoc(x, 0);
    assert Pow(x, 0) == 1 by { PowZeroValue(x); }
    row := [1, x];
    for j := 2 to n
      invariant row == PowersRow(x, j)
    {
      PowSnoc(x, j - 1);
      row := row + [Mul(row[j - 1], x)];
    }
    row := row + [y];
  }

  lemma PowZeroValue(x: Fe)
    ensures Pow(x, 0) == 1
  {
  }

  /** The polynomial through the given points, by elimination. */
  method FromEvalsWithXs(xs: seq<Fe>, evals: Vec) returns (coeffs: Vec)
    requires |xs| == |evals| >= 1 && Distinct(xs)
    ensures coeffs == Interpolate(xs, evals)
  {
    hide Interpolate, PowersRow, Forward;
    var n := |evals|;
    if n == 1 {
      InterpolateOne(xs, evals);
      return [evals[0]];
    }
    var matrix := NewMatrix(n);
    for i := 0 to n
      invariant forall r :: 0 <= r < i ==> matrix[r] == PowersRow(xs[r], n) + [evals[r]]
    {
      matrix[i] := BuildRow(xs[i], evals[i], n);
    }
    SystemStarts(matrix[..], xs, evals);
    coeffs := GaussianElimination(matrix, Interpolate(xs, evals), Duals(xs));
  }

  method NewMatrix(n: nat) returns (m: array<Vec>)
    ensures fresh(m) && m.Length == n
  {
    m := new Vec[n](_ => []);
  }

  lemma InterpolateOne(xs: seq<Fe>, ys: Vec)
    requires |xs| == |ys| == 1
    ensures Interpolate(xs, ys) == [ys[0]]
  {
    hide Eval;
    var f := Interpolate(xs, ys);
    InterpolateMeets(xs, ys, 0);
    EvalOne(f[0], xs[0]);
    assert f == [f[0]];
  }

  /** From the values at 0, 1, ..., n-1. */
  method FromEvalsByElimination(evals: Vec) returns (coeffs: Vec)
    requires 1 <= |evals| <= P
    ensures coeffs == FromEvals(evals)
  {
    hide Interpolate;
    coeffs := FromEvalsWithXs(Points(|evals|), evals);
  }
}
