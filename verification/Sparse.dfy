/** Compressed sparse rows, and the accelerated product that sorts the entries of
    each row by coefficient: +1, -1, small integers, everything else. */
module Sparse {
  import opened PrimeField
  import opened FieldLaws
  import opened Vectors

  datatype SparseMatrix = SparseMatrix(data: seq<Fe>, indices: seq<nat>, indptr: seq<nat>, cols: nat)

  const EMPTY := SparseMatrix([], [], [0], 0)

  /** Well-formed rows; columns are not restricted here. */
  ghost predicate Rows(m: SparseMatrix) {
    && |m.data| == |m.indices|
    && |m.indptr| >= 1 && m.indptr[0] == 0 && m.indptr[|m.indptr| - 1] == |m.data|
    && forall i, j :: 0 <= i <= j < |m.indptr| ==> m.indptr[i] <= m.indptr[j]
  }

  ghost predicate Valid(m: SparseMatrix) {
    Rows(m) && forall i :: 0 <= i < |m.indices| ==> m.indices[i] < m.cols
  }

  function NumRows(m: SparseMatrix): nat
    requires |m.indptr| >= 1
  {
    |m.indptr| - 1
  }

  // ---------------------------------------------------------------- the product

  type Entries = seq<(Fe, nat)>

  ghost predicate InRange(es: Entries, n: nat) {
    forall i :: 0 <= i < |es| ==> es[i].1 < n
  }

  /** Sum of value times vector entry. */
  function Eval(es: Entries, v: Vec): Fe
    requires InRange(es, |v|)
  {
    if |es| == 0 then 0
    else
      var last := |es| - 1;
      assert InRange(es[..last], |v|);
      Add(Eval(es[..last], v), Mul(es[last].0, v[es[last].1]))
  }

  function Row(m: SparseMatrix, r: nat): (es: Entries)
    requires Rows(m) && r < NumRows(m)
    ensures |es| == m.indptr[r + 1] - m.indptr[r]
  {
    seq(m.indptr[r + 1] - m.indptr[r], i requires 0 <= i < m.indptr[r + 1] - m.indptr[r] =>
      assert m.indptr[r + 1] <= m.indptr[|m.indptr| - 1];
      (m.data[m.indptr[r] + i], m.indices[m.indptr[r] + i]))
  }

  lemma RowInRange(m: SparseMatrix, r: nat)
    requires Valid(m) && r < NumRows(m)
    ensures InRange(Row(m, r), m.cols)
  {
    assert m.indptr[r + 1] <= m.indptr[|m.indptr| - 1];
  }

  /** The matrix times a dense vector. */
  function MultiplyVec(m: SparseMatrix, v: Vec): (out: Vec)
    requires Valid(m) && |v| == m.cols
    ensures |out| == NumRows(m)
  {
    seq(NumRows(m), r requires 0 <= r < NumRows(m) => RowInRange(m, r); Eval(Row(m, r), v))
  }

  // -------------------------------------------------------------- appending a row

  function Values(es: Entries): (d: seq<Fe>)
    ensures |d| == |es|
  {
    seq(|es|, i requires 0 <= i < |es| => es[i].0)
  }

  function Columns(es: Entries): (d: seq<nat>)
    ensures |d| == |es|
  {
    seq(|es|, i requires 0 <= i < |es| => es[i].1)
  }

  lemma EntriesConcat(es: Entries, fs: Entries)
    ensures Values(es + fs) == Values(es) + Values(fs) && Columns(es + fs) == Columns(es) + Columns(fs)
  {
  }

  function AppendRow(m: SparseMatrix, es: Entries): SparseMatrix {
    m.(data := m.data + Values(es), indices := m.indices + Columns(es), indptr := m.indptr + [|m.indices + Columns(es)|])
  }

  lemma AppendRowRows(m: SparseMatrix, es: Entries)
    requires Rows(m)
    ensures var n := AppendRow(m, es);
      Rows(n) && NumRows(n) == NumRows(m) + 1 && Row(n, NumRows(m)) == es
      && forall r :: 0 <= r < NumRows(m) ==> Row(n, r) == Row(m, r)
  {
    var n := AppendRow(m, es);
    var last := NumRows(m);
    assert Row(n, last) == es;
    forall r | 0 <= r < last ensures Row(n, r) == Row(m, r) {
      assert m.indptr[r + 1] <= m.indptr[|m.indptr| - 1];
    }
  }

  // ------------------------------------------------------------------- linearity

  lemma {:induction false} EvalAdd(es: Entries, v: Vec, w: Vec)
    requires |v| == |w| && InRange(es, |v|)
    ensures Eval(es, VAdd(v, w)) == Add(Eval(es, v), Eval(es, w))
  {
    hide Add, Mul;
    if |es| == 0 {
      AddZero(0);
    } else {
      var (init, x, c) := (es[..|es| - 1], es[|es| - 1].0, es[|es| - 1].1);
      EvalAdd(init, v, w);
      MulAdd(x, v[c], w[c]);
      AddSwap(Eval(init, v), Eval(init, w), Mul(x, v[c]), Mul(x, w[c]));
    }
  }

  lemma {:induction false} EvalScale(es: Entries, k: Fe, v: Vec)
    requires InRange(es, |v|)
    ensures Eval(es, VScale(k, v)) == Mul(k, Eval(es, v))
  {
    hide Add, Mul;
    if |es| == 0 {
      MulOne(k);
    } else {
      var (init, x, c) := (es[..|es| - 1], es[|es| - 1].0, es[|es| - 1].1);
      EvalScale(init, k, v);
      MulAdd(k, Eval(init, v), Mul(x, v[c]));
      MulAssoc(k, x, v[c]);
      MulAssoc(x, k, v[c]);
      MulComm(k, x);
    }
  }

  lemma MultiplyAdd(m: SparseMatrix, v: Vec, w: Vec)
    requires Valid(m) && |v| == |w| == m.cols
    ensures MultiplyVec(m, VAdd(v, w)) == VAdd(MultiplyVec(m, v), MultiplyVec(m, w))
  {
    hide Add, Eval, Row;
    var (x, y) := (MultiplyVec(m, VAdd(v, w)), VAdd(MultiplyVec(m, v), MultiplyVec(m, w)));
    forall r | 0 <= r < NumRows(m) ensures x[r] == y[r] {
      RowInRange(m, r);
      EvalAdd(Row(m, r), v, w);
    }
  }

  lemma MultiplyScale(m: SparseMatrix, k: Fe, v: Vec)
    requires Valid(m) && |v| == m.cols
    ensures MultiplyVec(m, VScale(k, v)) == VScale(k, MultiplyVec(m, v))
  {
    hide Mul, Eval, Row;
    var (x, y) := (MultiplyVec(m, VScale(k, v)), VScale(k, MultiplyVec(m, v)));
    forall r | 0 <= r < NumRows(m) ensures x[r] == y[r] {
      RowInRange(m, r);
      EvalScale(Row(m, r), k, v);
    }
  }

  // --------------------------------------------------------- classified entries

  /** Which of the four lists a coefficient goes to. */
  datatype Class = UnitPos | UnitNeg | Small(k: int) | General

  function Classify(x: Fe): (c: Class)
    ensures c.Small? ==> 2 <= c.k <= 7 || -7 <= c.k <= -2
  {
    if x == 1 then UnitPos
    else if x == P - 1 then UnitNeg
    else if 2 <= x <= 7 then Small(x)
    else if P - 7 <= x <= P - 2 then Small(x - P)
    else General
  }

  /** Product with a small signed coefficient by doublings and additions. */
  function SmallMul(k: int, x: Fe): Fe
    requires 2 <= k <= 7 || -7 <= k <= -2
  {
    var abs := if k < 0 then -k else k;
    var d := Dbl(x);
    var result :=
      if abs == 2 then d
      else if abs == 3 then Add(d, x)
      else if abs == 4 then Dbl(d)
      else if abs == 5 then Add(Dbl(d), x)
      else if abs == 6 then Add(Dbl(d), d)
      else Add(Add(Dbl(d), d), x);
    if k < 0 then Neg(result) else result
  }

  lemma NegMul(k: Fe, x: Fe)
    ensures Sub(0, Mul(k, x)) == Mul(Sub(0, k), x)
  {
    hide *;
    Hom();
    ROf(k); ROf(x); ROf(0);
    NegMulI(k, x);
  }

  lemma NegMulI(k: int, x: int)
    ensures ISub(0, IMul(k, x)) == IMul(ISub(0, k), x)
  {
  }

  /** The doubling chain is multiplication by the coefficient it stands for. */
  lemma SmallMulIsMul(k: int, x: Fe)
    requires 2 <= k <= 7 || -7 <= k <= -2
    ensures SmallMul(k, x) == Mul(R(k), x)
  {
    hide *;
    var abs: Fe := if k < 0 then -k else k;
    SmallMulOfMagnitude(k, abs, x);
    NegMul(abs, x);
    SmallResidues(k, abs, x);
  }

  lemma SmallMulOfMagnitude(k: int, abs: Fe, x: Fe)
    requires 2 <= k <= 7 || -7 <= k <= -2
    requires abs == if k < 0 then -k else k
    ensures SmallMul(k, x) == if k < 0 then Neg(Mul(abs, x)) else Mul(abs, x)
  {
    hide Mul, Add, Dbl, Neg;
    Multiples(x);
  }

  lemma SmallResidues(k: int, abs: Fe, x: Fe)
    requires 2 <= k <= 7 || -7 <= k <= -2
    requires abs == if k < 0 then -k else k
    ensures k > 0 ==> R(k) == abs
    ensures k < 0 ==> R(k) == Sub(0, abs) && Neg(Mul(abs, x)) == Sub(0, Mul(abs, x))
  {
    hide Mul;
  }

  lemma Multiples(x: Fe)
    ensures Mul(2, x) == Dbl(x) && Mul(3, x) == Add(Dbl(x), x) && Mul(4, x) == Dbl(Dbl(x))
    ensures Mul(5, x) == Add(Dbl(Dbl(x)), x) && Mul(6, x) == Add(Dbl(Dbl(x)), Dbl(x))
    ensures Mul(7, x) == Add(Add(Dbl(Dbl(x)), Dbl(x)), x)
  {
    hide Mul, Add;
    MultipleStep(1, x);
    MultipleStep(2, x);
    MultipleStep(3, x);
    MultipleStep(4, x);
    MultipleStep(5, x);
    MultipleStep(6, x);
    MulOne(x);
    var d := Dbl(x);
    AddAssoc(d, x, x);
    AddAssoc(Dbl(d), x, x);
  }

  lemma MultipleStep(k: Fe, x: Fe)
    requires k < 7
    ensures Mul(k + 1, x) == Add(Mul(k, x), x)
  {
    hide Mul;
    MulComm(k + 1, x);
    MulComm(k, x);
    MulSucc(x, k);
  }

  lemma MulSucc(x: Fe, k: Fe)
    requires k < 7
    ensures Mul(x, k + 1) == Add(Mul(x, k), x)
  {
  }

  /** The four lists one row is sorted into. */
  datatype Lists = Lists(pos: seq<nat>, neg: seq<nat>, smallCols: seq<nat>, smallCoeffs: seq<int>,
                         genCols: seq<nat>, genVals: seq<Fe>)

  const NOLISTS := Lists([], [], [], [], [], [])

  function Put(l: Lists, x: Fe, col: nat): Lists {
    match Classify(x)
    case UnitPos => l.(pos := l.pos + [col])
    case UnitNeg => l.(neg := l.neg + [col])
    case Small(k) => l.(smallCols := l.smallCols + [col], smallCoeffs := l.smallCoeffs + [k])
    case General => l.(genCols := l.genCols + [col], genVals := l.genVals + [x])
  }

  function PutAll(l: Lists, es: Entries): Lists {
    if |es| == 0 then l
    else
      var last := |es| - 1;
      Put(PutAll(l, es[..last]), es[last].0, es[last].1)
  }

  function Join(a: Lists, b: Lists): Lists {
    Lists(a.pos + b.pos, a.neg + b.neg, a.smallCols + b.smallCols, a.smallCoeffs + b.smallCoeffs,
          a.genCols + b.genCols, a.genVals + b.genVals)
  }

  ghost predicate WellFormed(l: Lists) {
    && |l.smallCols| == |l.smallCoeffs| && |l.genCols| == |l.genVals|
    && forall i :: 0 <= i < |l.smallCoeffs| ==> 2 <= l.smallCoeffs[i] <= 7 || -7 <= l.smallCoeffs[i] <= -2
  }

  lemma {:induction false} PutAllWellFormed(l: Lists, es: Entries)
    requires WellFormed(l)
    ensures WellFormed(PutAll(l, es))
  {
    if |es| > 0 { PutAllWellFormed(l, es[..|es| - 1]); }
  }

  /** Sorting a row after others only appends. */
  lemma {:induction false} PutAllJoin(l: Lists, es: Entries)
    ensures PutAll(l, es) == Join(l, PutAll(NOLISTS, es))
  {
    if |es| == 0 {
      assert Join(l, NOLISTS) == l;
    } else {
      var (init, x, c) := (es[..|es| - 1], es[|es| - 1].0, es[|es| - 1].1);
      PutAllJoin(l, init);
      PutJoin(l, PutAll(NOLISTS, init), x, c);
    }
  }

  lemma PutJoin(l: Lists, m: Lists, x: Fe, c: nat)
    ensures Put(Join(l, m), x, c) == Join(l, Put(m, x, c))
  {
    match Classify(x) {
      case UnitPos => assert (l.pos + m.pos) + [c] == l.pos + (m.pos + [c]);
      case UnitNeg => assert (l.neg + m.neg) + [c] == l.neg + (m.neg + [c]);
      case Small(k) =>
        assert (l.smallCols + m.smallCols) + [c] == l.smallCols + (m.smallCols + [c]);
        assert (l.smallCoeffs + m.smallCoeffs) + [k] == l.smallCoeffs + (m.smallCoeffs + [k]);
      case General =>
        assert (l.genCols + m.genCols) + [c] == l.genCols + (m.genCols + [c]);
        assert (l.genVals + m.genVals) + [x] == l.genVals + (m.genVals + [x]);
    }
  }

  // ------------------------------------------------- value of the sorted lists

  ghost predicate ColsBelow(cols: seq<nat>, n: nat) {
    forall i :: 0 <= i < |cols| ==> cols[i] < n
  }

  ghost predicate ListsBelow(l: Lists, n: nat) {
    WellFormed(l) && ColsBelow(l.pos, n) && ColsBelow(l.neg, n) && ColsBelow(l.smallCols, n) && ColsBelow(l.genCols, n)
  }

  /** s plus the entries of v at the given columns. */
  function PlusCols(s: Fe, cols: seq<nat>, v: Vec): Fe
    requires ColsBelow(cols, |v|)
  {
    if |cols| == 0 then s
    else
      var last := |cols| - 1;
      assert ColsBelow(cols[..last], |v|);
      Add(PlusCols(s, cols[..last], v), v[cols[last]])
  }

  function MinusCols(s: Fe, cols: seq<nat>, v: Vec): Fe
    requires ColsBelow(cols, |v|)
  {
    if |cols| == 0 then s
    else
      var last := |cols| - 1;
      assert ColsBelow(cols[..last], |v|);
      Sub(MinusCols(s, cols[..last], v), v[cols[last]])
  }

  ghost predicate SmallsOk(ks: seq<int>) {
    forall i :: 0 <= i < |ks| ==> 2 <= ks[i] <= 7 || -7 <= ks[i] <= -2
  }

  function PlusSmalls(s: Fe, cols: seq<nat>, ks: seq<int>, v: Vec): Fe
    requires ColsBelow(cols, |v|) && |cols| == |ks| && SmallsOk(ks)
  {
    if |cols| == 0 then s
    else
      var last := |cols| - 1;
      assert ColsBelow(cols[..last], |v|) && SmallsOk(ks[..last]);
      Add(PlusSmalls(s, cols[..last], ks[..last], v), SmallMul(ks[last], v[cols[last]]))
  }

  function PlusGenerals(s: Fe, cols: seq<nat>, xs: seq<Fe>, v: Vec): Fe
    requires ColsBelow(cols, |v|) && |cols| == |xs|
  {
    if |cols| == 0 then s
    else
      var last := |cols| - 1;
      assert ColsBelow(cols[..last], |v|);
      Add(PlusGenerals(s, cols[..last], xs[..last], v), Mul(xs[last], v[cols[last]]))
  }

  /** The accelerated row value: the four lists one after the other. */
  function ListsValue(l: Lists, v: Vec): Fe
    requires ListsBelow(l, |v|)
  {
    PlusGenerals(PlusSmalls(MinusCols(PlusCols(0, l.pos, v), l.neg, v), l.smallCols, l.smallCoeffs, v),
                 l.genCols, l.genVals, v)
  }

  // The start value can be pulled out of each list.

  lemma AddSlide(a: Fe, d: Fe, x: Fe)
    ensures Add(Add(a, d), x) == Add(Add(a, x), d)
    ensures Sub(Add(a, d), x) == Add(Sub(a, x), d)
  {
  }

  lemma {:induction false} MinusColsStart(s: Fe, d: Fe, cols: seq<nat>, v: Vec)
    requires ColsBelow(cols, |v|)
    ensures MinusCols(Add(s, d), cols, v) == Add(MinusCols(s, cols, v), d)
  {
    if |cols| > 0 {
      var init := cols[..|cols| - 1];
      MinusColsStart(s, d, init, v);
      AddSlide(MinusCols(s, init, v), d, v[cols[|cols| - 1]]);
    }
  }

  lemma {:induction false} PlusSmallsStart(s: Fe, d: Fe, cols: seq<nat>, ks: seq<int>, v: Vec)
    requires ColsBelow(cols, |v|) && |cols| == |ks| && SmallsOk(ks)
    ensures PlusSmalls(Add(s, d), cols, ks, v) == Add(PlusSmalls(s, cols, ks, v), d)
  {
    if |cols| > 0 {
      var last := |cols| - 1;
      PlusSmallsStart(s, d, cols[..last], ks[..last], v);
      AddSlide(PlusSmalls(s, cols[..last], ks[..last], v), d, SmallMul(ks[last], v[cols[last]]));
    }
  }

  lemma {:induction false} PlusGeneralsStart(s: Fe, d: Fe, cols: seq<nat>, xs: seq<Fe>, v: Vec)
    requires ColsBelow(cols, |v|) && |cols| == |xs|
    ensures PlusGenerals(Add(s, d), cols, xs, v) == Add(PlusGenerals(s, cols, xs, v), d)
  {
    if |cols| > 0 {
      var last := |cols| - 1;
      PlusGeneralsStart(s, d, cols[..last], xs[..last], v);
      AddSlide(PlusGenerals(s, cols[..last], xs[..last], v), d, Mul(xs[last], v[cols[last]]));
    }
  }

  // One more entry at the end of a list.

  lemma ColsSnoc(s: Fe, cols: seq<nat>, c: nat, v: Vec)
    requires ColsBelow(cols, |v|) && c < |v|
    ensures ColsBelow(cols + [c], |v|)
    ensures PlusCols(s, cols + [c], v) == Add(PlusCols(s, cols, v), v[c])
    ensures MinusCols(s, cols + [c], v) == Sub(MinusCols(s, cols, v), v[c])
  {
    hide Add, Sub;
    assert (cols + [c])[..|cols|] == cols;
  }

  lemma SmallsSnoc(s: Fe, cols: seq<nat>, ks: seq<int>, c: nat, k: int, v: Vec)
    requires ColsBelow(cols, |v|) && |cols| == |ks| && SmallsOk(ks)
    requires c < |v| && (2 <= k <= 7 || -7 <= k <= -2)
    ensures ColsBelow(cols + [c], |v|) && SmallsOk(ks + [k])
    ensures PlusSmalls(s, cols + [c], ks + [k], v) == Add(PlusSmalls(s, cols, ks, v), Mul(R(k), v[c]))
  {
    hide Add, SmallMul, Mul, R;
    assert (cols + [c])[..|cols|] == cols && (ks + [k])[..|ks|] == ks;
    SmallMulIsMul(k, v[c]);
  }

  lemma GeneralsSnoc(s: Fe, cols: seq<nat>, xs: seq<Fe>, c: nat, x: Fe, v: Vec)
    requires ColsBelow(cols, |v|) && |cols| == |xs| && c < |v|
    ensures ColsBelow(cols + [c], |v|)
    ensures PlusGenerals(s, cols + [c], xs + [x], v) == Add(PlusGenerals(s, cols, xs, v), Mul(x, v[c]))
  {
    hide Add, Mul;
    assert (cols + [c])[..|cols|] == cols && (xs + [x])[..|xs|] == xs;
  }

  lemma PutBelow(l: Lists, x: Fe, c: nat, n: nat)
    requires ListsBelow(l, n) && c < n
    ensures ListsBelow(Put(l, x, c), n)
  {
  }

  /** Putting one more entry adds its product. */
  lemma PutValue(l: Lists, x: Fe, c: nat, v: Vec)
    requires ListsBelow(l, |v|) && c < |v|
    ensures ListsBelow(Put(l, x, c), |v|)
    ensures ListsValue(Put(l, x, c), v) == Add(ListsValue(l, v), Mul(x, v[c]))
  {
    hide Mul, Add, Sub, R, PlusCols, MinusCols, PlusSmalls, PlusGenerals, Neg, Classify, ColsBelow;
    PutBelow(l, x, c, |v|);
    var d := Mul(x, v[c]);
    var a := PlusCols(0, l.pos, v);
    var b := MinusCols(a, l.neg, v);
    var e := PlusSmalls(b, l.smallCols, l.smallCoeffs, v);
    MinusColsStart(a, d, l.neg, v);
    PlusSmallsStart(b, d, l.smallCols, l.smallCoeffs, v);
    PlusGeneralsStart(e, d, l.genCols, l.genVals, v);
    match Classify(x) {
      case UnitPos =>
        ColsSnoc(0, l.pos, c, v);
        UnitClasses(x, v[c]);
      case UnitNeg =>
        ColsSnoc(a, l.neg, c, v);
        UnitClasses(x, v[c]);
        SubIsAdd(b, v[c]);
      case Small(k) =>
        SmallsSnoc(b, l.smallCols, l.smallCoeffs, c, k, v);
        SmallResidue(x, k);
      case General =>
        GeneralsSnoc(e, l.genCols, l.genVals, c, x, v);
    }
  }

  lemma UnitClasses(x: Fe, y: Fe)
    ensures Classify(x).UnitPos? ==> Mul(x, y) == y
    ensures Classify(x).UnitNeg? ==> Mul(x, y) == Neg(y)
  {
    hide Mul;
    MulOne(y);
    MinusOneMul(y);
  }

  lemma SmallResidue(x: Fe, k: int)
    requires Classify(x) == Small(k)
    ensures R(k) == x
  {
  }

  lemma MinusOneMul(x: Fe)
    ensures Mul(P - 1, x) == Neg(x)
  {
    hide Mul;
    NegMul(1, x);
    MulOne(x);
  }

  lemma SubIsAdd(a: Fe, x: Fe)
    ensures Sub(a, x) == Add(a, Neg(x))
  {
  }

  /** Sorting the entries of a row does not change its product with a vector. */
  lemma {:induction false} SortedValue(es: Entries, v: Vec)
    requires InRange(es, |v|)
    ensures ListsBelow(PutAll(NOLISTS, es), |v|)
    ensures ListsValue(PutAll(NOLISTS, es), v) == Eval(es, v)
  {
    hide Mul, SmallMul, Add, Put, ListsValue;
    if |es| == 0 {
      NoListsValue(v);
    } else {
      var (init, x, c) := (es[..|es| - 1], es[|es| - 1].0, es[|es| - 1].1);
      SortedValue(init, v);
      PutValue(PutAll(NOLISTS, init), x, c, v);
    }
  }

  lemma NoListsValue(v: Vec)
    ensures ListsValue(NOLISTS, v) == 0
  {
  }

  // ------------------------------------------------------ the precomputed form

  datatype Span = Span(start: nat, count: nat)
  datatype RowSpans = RowSpans(pos: Span, neg: Span, small: Span, gen: Span)
  datatype Precomputed = Precomputed(numRows: nat, numCols: nat, rows: seq<RowSpans>, lists: Lists)

  predicate SpanIn(s: Span, n: nat) {
    s.start + s.count <= n
  }

  predicate SpansIn(s: RowSpans, l: Lists) {
    && |l.smallCols| == |l.smallCoeffs| && |l.genCols| == |l.genVals|
    && SpanIn(s.pos, |l.pos|) && SpanIn(s.neg, |l.neg|) && SpanIn(s.small, |l.smallCols|) && SpanIn(s.gen, |l.genCols|)
  }

  function Slice<T>(xs: seq<T>, s: Span): (out: seq<T>)
    requires SpanIn(s, |xs|)
    ensures |out| == s.count
  {
    xs[s.start..s.start + s.count]
  }

  /** The part of the lists that belongs to one row. */
  function RowLists(l: Lists, s: RowSpans): Lists
    requires SpansIn(s, l)
  {
    Lists(Slice(l.pos, s.pos), Slice(l.neg, s.neg), Slice(l.smallCols, s.small), Slice(l.smallCoeffs, s.small),
          Slice(l.genCols, s.gen), Slice(l.genVals, s.gen))
  }

  ghost predicate RowMatches(l: Lists, s: RowSpans, es: Entries) {
    SpansIn(s, l) && RowLists(l, s) == PutAll(NOLISTS, es)
  }

  ghost predicate Matches(pc: Precomputed, m: SparseMatrix)
    requires Rows(m)
  {
    && pc.numRows == |pc.rows| == NumRows(m) && pc.numCols == m.cols
    && forall r :: 0 <= r < NumRows(m) ==> RowMatches(pc.lists, pc.rows[r], Row(m, r))
  }

  lemma RowStays(l: Lists, more: Lists, s: RowSpans, es: Entries)
    requires RowMatches(l, s, es) && WellFormed(more)
    ensures RowMatches(Join(l, more), s, es)
  {
    hide PutAll;
    assert RowLists(Join(l, more), s) == RowLists(l, s);
  }

  function NewSpans(before: Lists, now: Lists): (s: RowSpans)
    requires |before.pos| <= |now.pos| && |before.neg| <= |now.neg|
    requires |before.smallCols| <= |now.smallCols| && |before.genCols| <= |now.genCols|
  {
    RowSpans(Span(|before.pos|, |now.pos| - |before.pos|), Span(|before.neg|, |now.neg| - |before.neg|),
             Span(|before.smallCols|, |now.smallCols| - |before.smallCols|),
             Span(|before.genCols|, |now.genCols| - |before.genCols|))
  }

  lemma SliceSuffix<T>(a: seq<T>, b: seq<T>)
    ensures Slice(a + b, Span(|a|, |a + b| - |a|)) == b
  {
  }

  lemma NewRowLists(before: Lists, row: Lists)
    requires WellFormed(before) && WellFormed(row)
    ensures var now := Join(before, row);
      SpansIn(NewSpans(before, now), now) && RowLists(now, NewSpans(before, now)) == row
  {
    hide Slice;
    SliceSuffix(before.pos, row.pos);
    SliceSuffix(before.neg, row.neg);
    SliceSuffix(before.smallCols, row.smallCols);
    SliceSuffix(before.smallCoeffs, row.smallCoeffs);
    SliceSuffix(before.genCols, row.genCols);
    SliceSuffix(before.genVals, row.genVals);
  }

  lemma NewRowMatches(before: Lists, es: Entries)
    requires WellFormed(before)
    ensures var row := PutAll(NOLISTS, es); var now := Join(before, row);
      WellFormed(row) && RowMatches(now, NewSpans(before, now), es)
  {
    hide PutAll, RowLists;
    PutAllWellFormed(NOLISTS, es);
    NewRowLists(before, PutAll(NOLISTS, es));
  }

  method FromSparse(m: SparseMatrix) returns (pc: Precomputed)
    requires Rows(m)
    ensures Matches(pc, m)
  {
    hide Put, PutAll, Row, Join;
    var lists := NOLISTS;
    var rows: seq<RowSpans> := [];
    for r := 0 to NumRows(m)
      invariant |rows| == r && WellFormed(lists)
      invariant forall q :: 0 <= q < r ==> RowMatches(lists, rows[q], Row(m, q))
    {
      var start := lists;
      lists := SortRow(m, r, start);
      ghost var row := PutAll(NOLISTS, Row(m, r));
      PutAllJoin(start, Row(m, r));
      PutAllWellFormed(start, Row(m, r));
      NewRowMatches(start, Row(m, r));
      forall q | 0 <= q < r ensures RowMatches(lists, rows[q], Row(m, q)) {
        RowStays(start, row, rows[q], Row(m, q));
      }
      JoinGrows(start, row);
      rows := rows + [NewSpans(start, lists)];
    }
    pc := Precomputed(NumRows(m), m.cols, rows, lists);
  }

  lemma JoinGrows(l: Lists, m: Lists)
    ensures |Join(l, m).pos| >= |l.pos| && |Join(l, m).neg| >= |l.neg|
    ensures |Join(l, m).smallCols| >= |l.smallCols| && |Join(l, m).genCols| >= |l.genCols|
  {
  }

  method SortRow(m: SparseMatrix, r: nat, start: Lists) returns (lists: Lists)
    requires Rows(m) && r < NumRows(m)
    ensures lists == PutAll(start, Row(m, r))
  {
    hide Put;
    ghost var es := Row(m, r);
    lists := start;
    assert m.indptr[r + 1] <= m.indptr[|m.indptr| - 1];
    for i := m.indptr[r] to m.indptr[r + 1]
      invariant lists == PutAll(start, es[..i - m.indptr[r]])
    {
      var k := i - m.indptr[r];
      assert es[..k + 1][..k] == es[..k] && es[k] == (m.data[i], m.indices[i]);
      lists := Put(lists, m.data[i], m.indices[i]);
    }
    assert es[..|es|] == es;
  }

  // ------------------------------------------------------------- row products

  lemma RowListsBelow(pc: Precomputed, m: SparseMatrix, r: nat, v: Vec)
    requires Valid(m) && Matches(pc, m) && r < NumRows(m) && |v| == m.cols
    ensures InRange(Row(m, r), |v|) && r < |pc.rows|
    ensures SpansIn(pc.rows[r], pc.lists) && ListsBelow(RowLists(pc.lists, pc.rows[r]), |v|)
    ensures ListsValue(RowLists(pc.lists, pc.rows[r]), v) == Eval(Row(m, r), v)
  {
    hide ListsValue, PutAll, Eval, ListsBelow, Row;
    RowInRange(m, r);
    assert RowMatches(pc.lists, pc.rows[r], Row(m, r));
    SortedValue(Row(m, r), v);
  }

  method AddCols(s: Fe, cols: seq<nat>, span: Span, v: Vec) returns (sum: Fe)
    requires SpanIn(span, |cols|) && ColsBelow(Slice(cols, span), |v|)
    ensures sum == PlusCols(s, Slice(cols, span), v)
  {
    hide Add;
    ghost var xs := Slice(cols, span);
    sum := s;
    for i := span.start to span.start + span.count
      invariant ColsBelow(xs[..i - span.start], |v|) && sum == PlusCols(s, xs[..i - span.start], v)
    {
      var k := i - span.start;
      assert xs[..k + 1][..k] == xs[..k] && xs[k] == cols[i];
      sum := Add(sum, v[cols[i]]);
    }
    assert xs[..|xs|] == xs;
  }

  method SubCols(s: Fe, cols: seq<nat>, span: Span, v: Vec) returns (sum: Fe)
    requires SpanIn(span, |cols|) && ColsBelow(Slice(cols, span), |v|)
    ensures sum == MinusCols(s, Slice(cols, span), v)
  {
    hide Sub;
    ghost var xs := Slice(cols, span);
    sum := s;
    for i := span.start to span.start + span.count
      invariant ColsBelow(xs[..i - span.start], |v|) && sum == MinusCols(s, xs[..i - span.start], v)
    {
      var k := i - span.start;
      assert xs[..k + 1][..k] == xs[..k] && xs[k] == cols[i];
      sum := Sub(sum, v[cols[i]]);
    }
    assert xs[..|xs|] == xs;
  }

  method AddSmalls(s: Fe, cols: seq<nat>, ks: seq<int>, span: Span, v: Vec) returns (sum: Fe)
    requires |cols| == |ks| && SpanIn(span, |cols|)
    requires ColsBelow(Slice(cols, span), |v|) && SmallsOk(Slice(ks, span))
    ensures sum == PlusSmalls(s, Slice(cols, span), Slice(ks, span), v)
  {
    hide Add, SmallMul;
    ghost var (xs, ys) := (Slice(cols, span), Slice(ks, span));
    sum := s;
    for i := span.start to span.start + span.count
      invariant ColsBelow(xs[..i - span.start], |v|) && SmallsOk(ys[..i - span.start])
      invariant sum == PlusSmalls(s, xs[..i - span.start], ys[..i - span.start], v)
    {
      var k := i - span.start;
      assert xs[..k + 1][..k] == xs[..k] && xs[k] == cols[i];
      assert ys[..k + 1][..k] == ys[..k] && ys[k] == ks[i];
      sum := Add(sum, SmallMul(ks[i], v[cols[i]]));
    }
    assert xs[..|xs|] == xs && ys[..|ys|] == ys;
  }

  method AddGenerals(s: Fe, cols: seq<nat>, vals: seq<Fe>, span: Span, v: Vec) returns (sum: Fe)
    requires |cols| == |vals| && SpanIn(span, |cols|) && ColsBelow(Slice(cols, span), |v|)
    ensures sum == PlusGenerals(s, Slice(cols, span), Slice(vals, span), v)
  {
    hide Add, Mul;
    ghost var (xs, ys) := (Slice(cols, span), Slice(vals, span));
    sum := s;
    for i := span.start to span.start + span.count
      invariant ColsBelow(xs[..i - span.start], |v|)
      invariant sum == PlusGenerals(s, xs[..i - span.start], ys[..i - span.start], v)
    {
      var k := i - span.start;
      assert xs[..k + 1][..k] == xs[..k] && xs[k] == cols[i];
      assert ys[..k + 1][..k] == ys[..k] && ys[k] == vals[i];
      sum := Add(sum, Mul(vals[i], v[cols[i]]));
    }
    assert xs[..|xs|] == xs && ys[..|ys|] == ys;
  }

  method ComputeRowSingle(pc: Precomputed, ghost m: SparseMatrix, row: nat, v: Vec) returns (sum: Fe)
    requires Valid(m) && Matches(pc, m) && row < NumRows(m) && |v| == m.cols
    ensures InRange(Row(m, row), |v|) && sum == Eval(Row(m, row), v)
  {
    hide Row, Eval, PutAll, Matches, PlusCols, MinusCols, PlusSmalls, PlusGenerals, Slice, Valid;
    RowListsBelow(pc, m, row, v);
    var sp, l := pc.rows[row], pc.lists;
    sum := AddCols(0, l.pos, sp.pos, v);
    sum := SubCols(sum, l.neg, sp.neg, v);
    sum := AddSmalls(sum, l.smallCols, l.smallCoeffs, sp.small, v);
    sum := AddGenerals(sum, l.genCols, l.genVals, sp.gen, v);
  }

  /** The accelerated product is the product. */
  method MultiplyPrecomputed(pc: Precomputed, ghost m: SparseMatrix, v: Vec) returns (out: Vec)
    requires Valid(m) && Matches(pc, m) && |v| == m.cols
    ensures out == MultiplyVec(m, v)
  {
    hide Row, Eval, RowMatches;
    out := [];
    for r := 0 to pc.numRows
      invariant |out| == r && pc.numRows == NumRows(m)
      invariant forall q :: 0 <= q < r ==> out[q] == MultiplyVec(m, v)[q]
    {
      var x := ComputeRowSingle(pc, m, r, v);
      out := out + [x];
    }
  }
}
