/** Mercury's polynomial arithmetic: division by X^b - alpha column by column, division
    and multiplication by linear polynomials in place, and the batch opening of
    BDFG20 section 4.1, whose divisions leave no remainder. */
module Mercury {
  import opened PrimeField
  import opened FieldLaws
  import opened Vectors
  import opened Polynomials
  import opened Interpolation
  import opened Gaussian

  // ----------------------------------------------------------------- columns

  /** Every b-th entry of f from position c on. */
  function Column(f: Vec, c: nat, b: nat): (col: Vec)
    requires b >= 1
    decreases |f|
  {
    if c >= |f| then [] else [f[c]] + (if b <= |f| then Column(f[b..], c, b) else [])
  }

  function ColumnsOf(f: Vec, b: nat): (cols: seq<Vec>)
    requires b >= 1
    ensures |cols| == b
  {
    seq(b, c requires 0 <= c < b => Column(f, c, b))
  }

  /** The values of all columns at y. */
  function ColumnValues(f: Vec, b: nat, y: Fe): (v: Vec)
    requires b >= 1
    ensures |v| == b
  {
    seq(b, c requires 0 <= c < b => Eval(Column(f, c, b), y))
  }

  lemma {:induction false} ColumnLength(f: Vec, c: nat, b: nat, rows: nat)
    requires c < b && |f| == rows * b
    ensures |Column(f, c, b)| == rows
    decreases rows
  {
    if rows > 0 {
      RowsLess(rows, b);
      ColumnLength(f[b..], c, b, rows - 1);
    }
  }

  lemma RowsLess(rows: nat, b: nat)
    requires rows > 0
    ensures rows * b == (rows - 1) * b + b && b <= rows * b
  {
  }

  /** The first row, then the rest scaled. */
  lemma ColumnValuesUnfold(f: Vec, b: nat, y: Fe)
    requires 1 <= b <= |f|
    ensures ColumnValues(f, b, y) == VAdd(f[..b], VScale(y, ColumnValues(f[b..], b, y)))
  {
    hide Mul, Add;
    forall c | 0 <= c < b
      ensures ColumnValues(f, b, y)[c] == VAdd(f[..b], VScale(y, ColumnValues(f[b..], b, y)))[c]
    {
      EvalCons(f[c], Column(f[b..], c, b), y);
    }
  }

  /** A polynomial is the sum of X^c times its column c in X^b. */
  lemma {:induction false} EvalByColumns(f: Vec, b: nat, rows: nat, x: Fe)
    requires b >= 1 && |f| == rows * b
    ensures Eval(f, x) == Eval(ColumnValues(f, b, Pow(x, b)), x)
    decreases rows
  {
    hide Mul, Add, Eval, Pow, ColumnValues;
    var y := Pow(x, b);
    if rows == 0 {
      NoColumns(f, b, y);
      EvalZeros(b, x);
      EmptyIsZero(f, x);
    } else {
      RowsLess(rows, b);
      EvalByColumns(f[b..], b, rows - 1, x);
      ColumnValuesUnfold(f, b, y);
      assert f == f[..b] + f[b..];
      EvalConcat(f[..b], f[b..], x);
      EvalSum(f[..b], VScale(y, ColumnValues(f[b..], b, y)), x);
      EvalScale(y, ColumnValues(f[b..], b, y), x);
    }
  }

  lemma NoColumns(f: Vec, b: nat, y: Fe)
    requires |f| == 0 && b >= 1
    ensures ColumnValues(f, b, y) == Zeros(b)
  {
  }

  // ----------------------------------------------------------- rows and transposing

  function Flatten(rows: seq<Vec>): Vec {
    if |rows| == 0 then [] else rows[0] + Flatten(rows[1..])
  }

  lemma {:induction false} FlattenSnoc(rows: seq<Vec>, r: Vec)
    ensures Flatten(rows + [r]) == Flatten(rows) + r
  {
    if |rows| == 0 {
      assert rows + [r] == [r] && [r][1..] == [];
      assert Flatten([r][1..]) == [];
    } else {
      assert (rows + [r])[1..] == rows[1..] + [r];
      FlattenSnoc(rows[1..], r);
    }
  }

  ghost predicate Square(rows: seq<Vec>, b: nat) {
    forall r :: 0 <= r < |rows| ==> |rows[r]| == b
  }

  lemma {:induction false} FlattenLength(rows: seq<Vec>, b: nat)
    requires Square(rows, b)
    ensures |Flatten(rows)| == |rows| * b
  {
    if |rows| > 0 {
      FlattenLength(rows[1..], b);
      RowsLess(|rows|, b);
    }
  }

  function Entry(rows: seq<Vec>, c: nat): (v: Vec)
    requires forall r :: 0 <= r < |rows| ==> c < |rows[r]|
    ensures |v| == |rows|
  {
    seq(|rows|, r requires 0 <= r < |rows| => rows[r][c])
  }

  /** A column of the flattened matrix is a column of the matrix. */
  lemma {:induction false} ColumnOfFlat(rows: seq<Vec>, c: nat, b: nat)
    requires Square(rows, b) && c < b
    ensures Column(Flatten(rows), c, b) == Entry(rows, c)
  {
    if |rows| > 0 {
      ColumnOfFlat(rows[1..], c, b);
      assert Flatten(rows)[b..] == Flatten(rows[1..]);
      assert Entry(rows, c) == [rows[0][c]] + Entry(rows[1..], c);
    }
  }

  // ------------------------------------------------------------------- UniPoly

  /** x - a as a factor, and x + a. */
  function Combination(polys: seq<Vec>, scalars: Vec, x: Fe): Fe {
    if |polys| == 0 || |scalars| == 0 then 0
    else Add(Mul(scalars[0], Eval(polys[0], x)), Combination(polys[1..], scalars[1..], x))
  }

  function MaxLen(polys: seq<Vec>): (n: nat)
    ensures forall i :: 0 <= i < |polys| ==> |polys[i]| <= n
  {
    if |polys| == 0 then 0
    else
      assert forall i :: 1 <= i < |polys| ==> polys[i] == polys[1..][i - 1];
      var rest := MaxLen(polys[1..]);
      if |polys[0]| > rest then |polys[0]| else rest
  }

  class UniPoly {
    var coeffs: Vec

    constructor (coeffs: Vec)
      ensures this.coeffs == coeffs
    {
      this.coeffs := coeffs;
    }

    ghost function At(x: Fe): Fe
      reads this
    {
      Eval(coeffs, x)
    }

    /** Pads with zeros; the value does not change. */
    method Expand(size: nat)
      requires |coeffs| <= size
      modifies this
      ensures coeffs == Padded(old(coeffs), size)
    {
      while |coeffs| < size
        invariant old(|coeffs|) <= |coeffs| <= size
        invariant coeffs == Padded(old(coeffs), |coeffs|)
      {
        coeffs := coeffs + [0];
      }
    }

    method Scale(s: Fe)
      modifies this
      ensures |coeffs| == old(|coeffs|) && coeffs == VScale(s, old(coeffs))
    {
      hide Mul;
      for i := 0 to |coeffs|
        invariant |coeffs| == old(|coeffs|)
        invariant forall k :: 0 <= k < i ==> coeffs[k] == Mul(s, old(coeffs)[k])
        invariant forall k :: i <= k < |coeffs| ==> coeffs[k] == old(coeffs)[k]
      {
        MulComm(coeffs[i], s);
        coeffs := coeffs[i := Mul(coeffs[i], s)];
      }
    }

    /** Drops trailing zeros; the value does not change. */
    method Trim()
      modifies this
      ensures forall x :: At(x) == old(At(x))
      ensures coeffs <= old(coeffs) && (coeffs != [] ==> coeffs[|coeffs| - 1] != 0)
      ensures forall k :: |coeffs| <= k < old(|coeffs|) ==> old(coeffs)[k] == 0
    {
      hide Mul, Add, Eval;
      while coeffs != [] && coeffs[|coeffs| - 1] == 0
        invariant coeffs <= old(coeffs)
        invariant forall x :: At(x) == old(At(x))
        invariant forall k :: |coeffs| <= k < old(|coeffs|) ==> old(coeffs)[k] == 0
        decreases |coeffs|
      {
        ghost var before := coeffs;
        coeffs := coeffs[..|coeffs| - 1];
        forall x ensures Eval(coeffs, x) == Eval(before, x) {
          assert before == coeffs + [0];
          EvalSnoc(coeffs, 0, x);
          MulOne(Pow(x, |coeffs|));
          AddZero(Eval(coeffs, x));
        }
      }
    }

    /** f * (X + a). */
    method MultiplyByLinear(a: Fe)
      modifies this
      ensures |coeffs| == old(|coeffs|) + 1
      ensures forall x {:trigger Eval(coeffs, x)} :: Eval(coeffs, x) == Mul(Eval(old(coeffs), x), Add(x, a))
    {
      hide Mul, Add, Eval;
      ghost var f := coeffs;
      var aF := VScale(a, coeffs);
      var n := |coeffs|;
      coeffs := [0] + coeffs;
      for i := 0 to n
        invariant |coeffs| == n + 1
        invariant forall k :: 0 <= k < i ==> coeffs[k] == Add(([0] + f)[k], Mul(a, f[k]))
        invariant forall k :: i <= k < n + 1 ==> coeffs[k] == ([0] + f)[k]
      {
        coeffs := coeffs[i := Add(coeffs[i], aF[i])];
      }
      assert coeffs == MulAddVec([0] + f, f, a);
      forall x ensures Eval(coeffs, x) == Mul(Eval(f, x), Add(x, a)) {
        EvalMulAddVec([0] + f, f, a, x);
        EvalCons(0, f, x);
        AddZero(Mul(x, Eval(f, x)));
        AddMul(x, a, Eval(f, x));
        MulComm(Add(x, a), Eval(f, x));
      }
    }

    /** f / (X - a), returning the remainder f(a). */
    method DivideByLinear(a: Fe) returns (remainder: Fe)
      requires |coeffs| > 0
      modifies this
      ensures coeffs == Quotient(old(coeffs), a) && remainder == Eval(old(coeffs), a)
    {
      hide Mul, Add, Eval;
      ghost var f := coeffs;
      var i := |coeffs| - 1;
      assert f[i..] == [f[i]];
      EvalOne(f[i], a);
      while i > 0
        invariant 0 <= i < |coeffs| == |f|
        invariant forall k :: 0 <= k < i ==> coeffs[k] == f[k]
        invariant forall k :: i <= k < |f| ==> coeffs[k] == Eval(f[k..], a)
      {
        i := i - 1;
        var last := Mul(coeffs[i + 1], a);
        MulComm(coeffs[i + 1], a);
        TailValue(f, a, i);
        coeffs := coeffs[i := Add(coeffs[i], last)];
      }
      assert f[0..] == f;
      remainder := coeffs[0];
      coeffs := coeffs[1..];
    }

    /** Adds the scaled polynomials; entries -1 and 0 have shortcuts. */
    method BatchAdd(polynomials: seq<Vec>, scalars: Vec)
      requires |polynomials| >= 1
      modifies this
      ensures |coeffs| == if MaxLen(polynomials) > old(|coeffs|) then MaxLen(polynomials) else old(|coeffs|)
      ensures forall x {:trigger Eval(coeffs, x)} :: Eval(coeffs, x) == Add(Eval(old(coeffs), x), Combination(polynomials, scalars, x))
    {
      hide Mul, Add, Eval, Combination, Padded;
      ghost var f := coeffs;
      var rhsMaxLen := MaxLen(polynomials);
      var size := if rhsMaxLen > |coeffs| then rhsMaxLen else |coeffs|;
      Expand(size);
      ghost var g := coeffs;
      for coeffId := 0 to rhsMaxLen
        invariant |coeffs| == size
        invariant forall k :: 0 <= k < coeffId ==> coeffs[k] == CoeffSum(g[k], polynomials, scalars, k)
        invariant forall k :: coeffId <= k < size ==> coeffs[k] == g[k]
      {
        var coeff := AddCoefficients(coeffs[coeffId], polynomials, scalars, coeffId);
        coeffs := coeffs[coeffId := coeff];
      }
      forall k | rhsMaxLen <= k < size ensures CoeffSum(g[k], polynomials, scalars, k) == g[k] {
        PastTheEnd(g[k], polynomials, scalars, k);
      }
      forall x ensures Eval(coeffs, x) == Add(Eval(f, x), Combination(polynomials, scalars, x)) {
        SumOfCoefficients(g, polynomials, scalars, coeffs, x);
        PaddedValue(f, size, x);
      }
    }

    /** Rearranges a b by b matrix, filled up with zeros. */
    method Transpose(numRows: nat, numCols: nat)
      requires numRows <= numCols && numCols >= 1 && |coeffs| <= numCols * numCols
      modifies this
      ensures coeffs == Flatten(ColumnsOf(Padded(old(coeffs), numCols * numCols), numCols))
    {
      hide Column;
      var b := numCols;
      Expand(b * b);
      ghost var full := coeffs;
      var newCoeffs: Vec := [];
      ghost var all := ColumnsOf(full, b);
      for c := 0 to b
        invariant newCoeffs == Flatten(all[..c])
        invariant coeffs == full
      {
        assert all[..c + 1] == all[..c] + [all[c]];
        FlattenSnoc(all[..c], all[c]);
        newCoeffs := newCoeffs + Column(coeffs, c, b);
      }
      assert all[..b] == all;
      coeffs := newCoeffs;
    }
  }

  lemma TailValue(f: Vec, a: Fe, i: nat)
    requires i < |f|
    ensures Eval(f[i..], a) == Add(f[i], Mul(a, Eval(f[i + 1..], a)))
  {
    assert f[i..][1..] == f[i + 1..];
  }

  /** One coefficient after all scaled polynomials are added to it. */
  function CoeffSum(start: Fe, polys: seq<Vec>, scalars: Vec, k: nat): Fe
    decreases |polys|
  {
    if |polys| == 0 || |scalars| == 0 then start
    else CoeffSum(if k < |polys[0]| then Add(start, Mul(scalars[0], polys[0][k])) else start, polys[1..], scalars[1..], k)
  }

  lemma {:induction false} PastTheEnd(start: Fe, polys: seq<Vec>, scalars: Vec, k: nat)
    requires forall i :: 0 <= i < |polys| ==> |polys[i]| <= k
    ensures CoeffSum(start, polys, scalars, k) == start
    decreases |polys|
  {
    if |polys| > 0 && |scalars| > 0 { PastTheEnd(start, polys[1..], scalars[1..], k); }
  }

  /** The inner loop over the polynomials. */
  method AddCoefficients(start: Fe, polys: seq<Vec>, scalars: Vec, k: nat) returns (coeff: Fe)
    ensures coeff == CoeffSum(start, polys, scalars, k)
  {
    hide Mul, Add, Sub, Neg;
    coeff := start;
    var n := if |polys| <= |scalars| then |polys| else |scalars|;
    assert polys[0..] == polys && scalars[0..] == scalars;
    for i := 0 to n
      invariant CoeffSum(coeff, polys[i..], scalars[i..], k) == CoeffSum(start, polys, scalars, k)
    {
      assert polys[i..][1..] == polys[i + 1..] && scalars[i..][1..] == scalars[i + 1..];
      if k < |polys[i]| {
        var rhs := polys[i][k];
        Shortcuts(coeff, scalars[i], rhs);
        if scalars[i] == Neg(1) {
          coeff := Sub(coeff, rhs);
        } else if scalars[i] != 0 && rhs != 0 {
          coeff := Add(coeff, Mul(scalars[i], rhs));
        }
      }
    }
  }

  lemma Shortcuts(coeff: Fe, s: Fe, rhs: Fe)
    ensures Sub(coeff, rhs) == Add(coeff, Mul(Neg(1), rhs))
    ensures s == 0 || rhs == 0 ==> Add(coeff, Mul(s, rhs)) == coeff
  {
    hide Mul, Add;
    MinusOne(coeff, rhs);
    MulOne(s);
    MulOne(rhs);
    AddZero(coeff);
  }

  function AddAll(g: Vec, polys: seq<Vec>, scalars: Vec): (r: Vec)
    requires forall i :: 0 <= i < |polys| ==> |polys[i]| <= |g|
    ensures |r| == |g|
    decreases |polys|
  {
    if |polys| == 0 || |scalars| == 0 then g else AddAll(MulAddVec(g, polys[0], scalars[0]), polys[1..], scalars[1..])
  }

  lemma {:induction false} AddAllEntries(g: Vec, polys: seq<Vec>, scalars: Vec, k: nat)
    requires k < |g| && forall i :: 0 <= i < |polys| ==> |polys[i]| <= |g|
    ensures AddAll(g, polys, scalars)[k] == CoeffSum(g[k], polys, scalars, k)
    decreases |polys|
  {
    hide Mul, Add;
    if |polys| > 0 && |scalars| > 0 {
      AddAllEntries(MulAddVec(g, polys[0], scalars[0]), polys[1..], scalars[1..], k);
    }
  }

  lemma {:induction false} AddAllValue(g: Vec, polys: seq<Vec>, scalars: Vec, x: Fe)
    requires forall i :: 0 <= i < |polys| ==> |polys[i]| <= |g|
    ensures Eval(AddAll(g, polys, scalars), x) == Add(Eval(g, x), Combination(polys, scalars, x))
    decreases |polys|
  {
    hide Mul, Add, Eval, MulAddVec;
    if |polys| == 0 || |scalars| == 0 {
      AddZero(Eval(g, x));
    } else {
      AddAllValue(MulAddVec(g, polys[0], scalars[0]), polys[1..], scalars[1..], x);
      EvalMulAddVec(g, polys[0], scalars[0], x);
      AddAssoc(Eval(g, x), Mul(scalars[0], Eval(polys[0], x)), Combination(polys[1..], scalars[1..], x));
    }
  }

  lemma SumOfCoefficients(g: Vec, polys: seq<Vec>, scalars: Vec, c: Vec, x: Fe)
    requires |c| == |g| && forall i :: 0 <= i < |polys| ==> |polys[i]| <= |g|
    requires forall k :: 0 <= k < |c| ==> c[k] == CoeffSum(g[k], polys, scalars, k)
    ensures Eval(c, x) == Add(Eval(g, x), Combination(polys, scalars, x))
  {
    hide Mul, Add, Eval, CoeffSum, AddAll, Combination;
    forall k | 0 <= k < |g| ensures c[k] == AddAll(g, polys, scalars)[k] { AddAllEntries(g, polys, scalars, k); }
    assert c == AddAll(g, polys, scalars);
    AddAllValue(g, polys, scalars, x);
  }

  // --------------------------------------------------------- division by X^b - alpha

  /** One column divided by Y - alpha and padded to a full column. */
  function PaddedQuotient(col: Vec, alpha: Fe, b: nat): (q: Vec)
    requires 1 <= |col| <= b + 1
    ensures |q| == b
  {
    Padded(Quotient(col, alpha), b)
  }

  /** Columns of the quotient, and the remainders, make up the division. */
  lemma BinomialFromColumns(f: Vec, q: Vec, g: Vec, rows: nat, b: nat, alpha: Fe, x: Fe)
    requires 1 <= rows <= b && |f| == rows * b && |q| == b * b && |g| == b
    requires forall c :: 0 <= c < b ==> |Column(f, c, b)| == rows && Column(q, c, b) == PaddedQuotient(Column(f, c, b), alpha, b)
    requires forall c :: 0 <= c < b ==> g[c] == Eval(Column(f, c, b), alpha)
    ensures Eval(f, x) == Add(Mul(Sub(Pow(x, b), alpha), Eval(q, x)), Eval(g, x))
  {
    hide Mul, Add, Sub, Eval, Pow, Column, Quotient, Padded;
    var y := Pow(x, b);
    EvalByColumns(f, b, rows, x);
    EvalByColumns(q, b, b, x);
    forall c | 0 <= c < b
      ensures ColumnValues(f, b, y)[c] == Add(Mul(Sub(y, alpha), ColumnValues(q, b, y)[c]), g[c])
    {
      QuotientDivides(Column(f, c, b), alpha, y);
      PaddedValue(Quotient(Column(f, c, b), alpha), b, y);
    }
    assert ColumnValues(f, b, y) == VAdd(VScale(Sub(y, alpha), ColumnValues(q, b, y)), g);
    EvalSum(VScale(Sub(y, alpha), ColumnValues(q, b, y)), g, x);
    EvalScale(Sub(y, alpha), ColumnValues(q, b, y), x);
  }

  /** The padded quotients of all columns, laid out and transposed, have them as columns. */
  lemma TransposedColumns(rows: seq<Vec>, b: nat, c: nat)
    requires |rows| == b >= 1 && Square(rows, b) && c < b
    ensures |Flatten(rows)| == b * b && Padded(Flatten(rows), b * b) == Flatten(rows)
    ensures var t := ColumnsOf(Flatten(rows), b);
      |Flatten(t)| == b * b && Column(Flatten(t), c, b) == rows[c]
  {
    hide Column, Flatten;
    FlattenLength(rows, b);
    assert Zeros(0) == [];
    assert Flatten(rows) + [] == Flatten(rows);
    var t := ColumnsOf(Flatten(rows), b);
    forall k | 0 <= k < b ensures t[k] == Entry(rows, k) { ColumnOfFlat(rows, k, b); }
    FlattenLength(t, b);
    ColumnOfFlat(t, c, b);
    assert Entry(t, c) == rows[c];
  }

  /** f = (X^b - alpha) * q + g with g of degree below b = numCols, for every layout with
      no more rows than columns. */
  method DivideByBinomial(coeffs: Vec, numRows: nat, numCols: nat, alpha: Fe) returns (quotient: UniPoly, remainder: UniPoly)
    requires 1 <= numRows <= numCols && |coeffs| == numRows * numCols
    ensures fresh(quotient) && fresh(remainder) && |remainder.coeffs| == numCols
    ensures forall x :: Eval(coeffs, x) == Add(Mul(Sub(Pow(x, numCols), alpha), quotient.At(x)), remainder.At(x))
  {
    hide Mul, Add, Sub, Eval, Pow, Column, Quotient, Padded, Flatten;
    var b := numCols;
    var quotients: seq<Vec> := [];
    var remainders: Vec := [];
    for c := 0 to b
      invariant |quotients| == |remainders| == c
      invariant forall k :: 0 <= k < c ==> |Column(coeffs, k, b)| == numRows
      invariant forall k :: 0 <= k < c ==> quotients[k] == PaddedQuotient(Column(coeffs, k, b), alpha, b)
      invariant forall k :: 0 <= k < c ==> remainders[k] == Eval(Column(coeffs, k, b), alpha)
    {
      ColumnLength(coeffs, c, b, numRows);
      var col := new UniPoly(Column(coeffs, c, b));
      var rem := col.DivideByLinear(alpha);
      col.Expand(b);
      quotients := quotients + [col.coeffs];
      remainders := remainders + [rem];
    }
    forall c | 0 <= c < b
      ensures |Flatten(quotients)| == b * b && Padded(Flatten(quotients), b * b) == Flatten(quotients)
      ensures var t := ColumnsOf(Flatten(quotients), b);
        |Flatten(t)| == b * b && Column(Flatten(t), c, b) == quotients[c]
    {
      TransposedColumns(quotients, b, c);
    }
    TransposedColumns(quotients, b, 0);
    quotient := new UniPoly(Flatten(quotients));
    quotient.Transpose(numRows, b);
    remainder := new UniPoly(remainders);
    forall x ensures Eval(coeffs, x) == Add(Mul(Sub(Pow(x, numCols), alpha), quotient.At(x)), remainder.At(x)) {
      BinomialFromColumns(coeffs, quotient.coeffs, remainders, numRows, b, alpha, x);
    }
  }
}
