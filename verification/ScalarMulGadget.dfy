/** Scalar multiplication inside a circuit: a double-and-add loop on the incomplete
    operations, then a tail on the complete ones.

    That the curve's law is a group law is not proved here; the multiples of the input
    point are given as a cyclic group of odd order under the chord-and-tangent law. */
module ScalarMulGadget {
  import opened PrimeField
  import opened FieldLaws
  import opened Curve
  import opened Circuit
  import opened EccGadget
  import opened PowersOfTwo

  /** A point known not to be infinite. */
  datatype CoordWires = CoordWires(x: Wire, y: Wire)

  predicate CIn(p: CoordWires, n: nat) {
    In(p.x, n) && In(p.y, n)
  }

  function CV(w: Assignment, p: CoordWires): Affine {
    Point(V(w, p.x), V(w, p.y))
  }

  // --------------------------------------------------------- incomplete operations

  // The values the prover assigns, for any field elements in the coordinates, and when
  // they satisfy the constraints.

  function SumValue(p: Affine, q: Affine): (r: Affine)
    requires p.Point? && q.Point?
    ensures r.Point?
  {
    Through(if q.x == p.x then 1 else Chord(p.x, p.y, q.x, q.y), p.x, p.y, q.x)
  }

  predicate SumWorks(p: Affine, q: Affine)
    requires p.Point? && q.Point?
  {
    p.x != q.x || p.y == q.y
  }

  function DoubleValue(p: Affine): (r: Affine)
    requires p.Point?
    ensures r.Point?
  {
    Through(if p.y == 0 then 1 else Tangent(K.a, p.x, p.y), p.x, p.y, p.x)
  }

  predicate DoubleWorks(p: Affine)
    requires p.Point?
  {
    p.y != 0 || TangentRise(K.a, p.x) == 0
  }

  /** Addition of points with different abscissae. */
  method AddIncomplete(cs: CS, p: CoordWires, q: CoordWires) returns (r: CoordWires)
    requires cs.Valid() && CIn(p, |cs.aux|) && CIn(q, |cs.aux|)
    modifies cs
    ensures cs.Grown(old(cs.aux), old(cs.constraints)) && CIn(r, |cs.aux|)
    ensures forall w {:trigger Sat(w, cs.constraints)} :: Sat(w, cs.constraints) && V(w, p.x) != V(w, q.x) ==>
              CV(w, r) == AddPoints(K, CV(w, p), CV(w, q))
    ensures CV(cs.aux, r) == SumValue(CV(cs.aux, p), CV(cs.aux, q))
    ensures old(cs.Honest()) ==> (cs.Honest() <==> SumWorks(CV(cs.aux, p), CV(cs.aux, q)))
  {
    hide Mul, Sub, Sat, Inv, Through, ConstraintIn;
    ghost var (vx, vy, ux, uy) := (V(cs.aux, p.x), V(cs.aux, p.y), V(cs.aux, q.x), V(cs.aux, q.y));
    var slope := if V(cs.aux, q.x) == V(cs.aux, p.x) then 1
                 else Mul(Sub(V(cs.aux, q.y), V(cs.aux, p.y)), Inv(Sub(V(cs.aux, q.x), V(cs.aux, p.x))));
    var lambda := cs.Alloc(slope);
    cs.Enforce(L1(Pos(lambda)), L2(Pos(q.x), Minus(p.x)), L2(Pos(q.y), Minus(p.y)));
    SumHonest(vx, vy, ux, uy, slope);
    ghost var (a1, s1) := (cs.aux, cs.constraints);
    hide Chord, Holds;
    var x, y := ThirdPoint(cs, lambda, p.x, p.y, q.x);
    HonestBefore(a1, cs.aux, s1);
    r := CoordWires(x, y);
    forall w | Sat(w, cs.constraints) && V(w, p.x) != V(w, q.x)
      ensures CV(w, r) == AddPoints(K, CV(w, p), CV(w, q))
    {
      ChordForced(V(w, lambda), V(w, p.x), V(w, p.y), V(w, q.x), V(w, q.y));
    }
  }

  lemma SumHonest(px: Fe, py: Fe, qx: Fe, qy: Fe, slope: Fe)
    requires slope == if qx == px then 1 else Chord(px, py, qx, qy)
    ensures Mul(slope, Sub(qx, px)) == Sub(qy, py) <==> px != qx || py == qy
  {
    hide Mul, Sub, Inv, Chord;
    SubIsZero(qx, px);
    SubIsZero(qy, py);
    MulOne(slope);
    if px != qx { ChordTimes(px, py, qx, qy); }
  }

  /** Doubling of a point that is not its own opposite. */
  method DoubleIncomplete(cs: CS, p: CoordWires) returns (r: CoordWires)
    requires cs.Valid() && CIn(p, |cs.aux|)
    modifies cs
    ensures cs.Grown(old(cs.aux), old(cs.constraints)) && CIn(r, |cs.aux|)
    ensures forall w {:trigger Sat(w, cs.constraints)} :: Sat(w, cs.constraints) && V(w, p.y) != 0 ==>
              CV(w, r) == DoublePoint(K, CV(w, p))
    ensures CV(cs.aux, r) == DoubleValue(CV(cs.aux, p))
    ensures old(cs.Honest()) ==> (cs.Honest() <==> DoubleWorks(CV(cs.aux, p)))
  {
    hide Mul, Add, Sub, Sat, Inv, Through, Tangent, TangentRise, ConstraintIn;
    ghost var (vx, vy) := (V(cs.aux, p.x), V(cs.aux, p.y));
    var xSq := cs.Alloc(Mul(V(cs.aux, p.x), V(cs.aux, p.x)));
    cs.Enforce(L1(Pos(p.x)), L1(Pos(p.x)), L1(Pos(xSq)));
    var n := Add(Mul(3, V(cs.aux, xSq)), K.a);
    var d := Mul(2, V(cs.aux, p.y));
    var lambda := cs.Alloc(if d == 0 then 1 else Mul(n, Inv(d)));
    cs.Enforce(L1(Pos(lambda)), L1(Scaled(2, p.y)), L2(Scaled(3, xSq), Scaled(K.a, One)));
    DoubleHonest(vx, vy, n, d);
    ghost var (a1, s1) := (cs.aux, cs.constraints);
    hide Holds;
    var x, y := ThirdPoint(cs, lambda, p.x, p.y, p.x);
    HonestBefore(a1, cs.aux, s1);
    r := CoordWires(x, y);
    forall w | Sat(w, cs.constraints) && V(w, p.y) != 0
      ensures CV(w, r) == DoublePoint(K, CV(w, p))
    {
      DoubleSlope(V(w, lambda), V(w, p.x), V(w, p.y), V(w, xSq));
      DoubleIsThrough(V(w, p.x), V(w, p.y));
    }
  }

  lemma DoubleHonest(x: Fe, y: Fe, n: Fe, d: Fe)
    requires n == Add(Mul(3, Mul(x, x)), K.a) && d == Mul(2, y)
    ensures var slope := if d == 0 then 1 else Mul(n, Inv(d));
      && slope == (if y == 0 then 1 else Tangent(K.a, x, y))
      && (Mul(slope, d) == n <==> y != 0 || TangentRise(K.a, x) == 0)
    ensures Mul(K.a, 1) == K.a
  {
    hide Mul, Add, Inv;
    ThreeTimes(x, y);
    ThreeTimes(x, Mul(x, x));
    TwoNonzero(y);
    MulOne(1);
    MulOne(K.a);
    if y != 0 { SlopeTimes(n, d); }
  }

  lemma DoubleSlope(l: Fe, x: Fe, y: Fe, s: Fe)
    requires y != 0 && s == Mul(x, x) && Mul(l, Mul(2, y)) == Add(Mul(3, s), Mul(K.a, 1))
    ensures l == Tangent(K.a, x, y)
  {
    hide Mul, Add, Tangent;
    ThreeTimes(x, y);
    ThreeTimes(x, s);
    MulOne(K.a);
    TangentForced(l, x, y);
  }

  lemma DoubleIsThrough(x: Fe, y: Fe)
    requires y != 0
    ensures DoublePoint(K, Point(x, y)) == Through(Tangent(K.a, x, y), x, y, x)
  {
    hide Through, Tangent;
  }

  method SelectCoords(cs: CS, a: CoordWires, b: CoordWires, cond: Wire) returns (r: CoordWires)
    requires cs.Valid() && CIn(a, |cs.aux|) && CIn(b, |cs.aux|) && In(cond, |cs.aux|)
    modifies cs
    ensures cs.Grown(old(cs.aux), old(cs.constraints)) && CIn(r, |cs.aux|)
    ensures forall w {:trigger Sat(w, cs.constraints)} :: Sat(w, cs.constraints) && IsBit(V(w, cond)) ==>
              CV(w, r) == if V(w, cond) == 1 then CV(w, a) else CV(w, b)
    ensures CV(cs.aux, r) == if V(cs.aux, cond) == 1 then CV(cs.aux, a) else CV(cs.aux, b)
    ensures old(cs.Honest()) && IsBit(V(cs.aux, cond)) ==> cs.Honest()
  {
    hide Sat, V;
    var x := ConditionallySelect(cs, a.x, b.x, cond);
    var y := ConditionallySelect(cs, a.y, b.y, cond);
    r := CoordWires(x, y);
  }

  // ------------------------------------------------------------ multiples of a point

  ghost predicate Pair(i: int, j: int) { true }

  ghost predicate MultipleOf(q: int, i: int) {
    exists t: int {:trigger Pair(q, t)} :: Pair(q, t) && i == q * t
  }

  /** m gives the multiples of a point: a group of odd order q on the curve. */
  ghost predicate Cyclic(m: int -> Affine, q: int) {
    && q > 0 && q % 2 == 1
    && forall i, j {:trigger Pair(i, j)} :: Pair(i, j) ==>
         && OnCurve(K, m(i))
         && AddPoints(K, m(i), m(j)) == m(i + j)
         && (m(i) == Infinity <==> MultipleOf(q, i))
  }

  lemma NotMultiple(q: int, i: int)
    requires q > 0 && (0 < i < q || -q < i < 0)
    ensures !MultipleOf(q, i)
  {
    forall t: int ensures i != q * t {
      if t >= 1 { MulMono(q, 1, t); } else if t <= -1 { MulMono(q, t, -1); }
    }
  }

  lemma HalfMultiple(q: int, i: int)
    requires q > 0 && q % 2 == 1 && MultipleOf(q, 2 * i)
    ensures MultipleOf(q, i)
  {
    var t :| Pair(q, t) && 2 * i == q * t;
    if t % 2 == 1 {
      OddProduct(q, t);
    } else {
      assert q * t == 2 * (q * (t / 2)) by { assert t == 2 * (t / 2); EvenProduct(q, t / 2); }
      assert Pair(q, t / 2);
    }
  }

  lemma OddProduct(a: int, b: int)
    requires a % 2 == 1 && b % 2 == 1
    ensures (a * b) % 2 == 1
  {
    var c, d := a / 2, b / 2;
    assert a == 2 * c + 1 && b == 2 * d + 1;
    assert a * b == 2 * (2 * (c * d) + c + d) + 1 by { ExpandOdd(c, d); }
  }

  lemma ExpandOdd(c: int, d: int)
    ensures (2 * c + 1) * (2 * d + 1) == 2 * (2 * (c * d) + c + d) + 1
  {
  }

  lemma EvenProduct(q: int, h: int)
    ensures q * (2 * h) == 2 * (q * h)
  {
  }

  lemma Multiples(m: int -> Affine, q: int, i: int, j: int)
    requires Cyclic(m, q)
    ensures OnCurve(K, m(i)) && AddPoints(K, m(i), m(j)) == m(i + j)
    ensures m(i) == Infinity <==> MultipleOf(q, i)
  {
    assert Pair(i, j);
  }

  /** No multiple is its own opposite, as the order is odd. */
  lemma NoTwoTorsion(m: int -> Affine, q: int, i: int)
    requires Cyclic(m, q)
    ensures m(i).Point? ==> m(i).y != 0 && m(2 * i).Point?
  {
    hide OnCurve, Through, Chord, Tangent, MultipleOf, Cyclic;
    Multiples(m, q, i, i);
    Multiples(m, q, 2 * i, 0);
    assert i + i == 2 * i;
    assert q > 0 && q % 2 == 1 by { OddOrder(m, q); }
    if MultipleOf(q, 2 * i) { HalfMultiple(q, i); }
  }

  lemma OddOrder(m: int -> Affine, q: int)
    requires Cyclic(m, q)
    ensures q > 0 && q % 2 == 1
  {
  }

  /** Two multiples below half the order apart and together below the order have
      different abscissae. */
  lemma DifferentAbscissae(m: int -> Affine, q: int, s: int, t: int)
    requires Cyclic(m, q) && 0 < s && 0 < t && s != t && s + t < q
    ensures m(s).Point? && m(t).Point? && m(s).x != m(t).x
  {
    hide OnCurve, Through, Chord, Tangent, MultipleOf, Cyclic;
    OddOrder(m, q);
    Multiples(m, q, s, t);
    Multiples(m, q, t, -t);
    Multiples(m, q, s, -t);
    Multiples(m, q, s + t, 0);
    Multiples(m, q, s - t, 0);
    Multiples(m, q, 0, 0);
    NotMultiple(q, s);
    NotMultiple(q, t);
    NotMultiple(q, s + t);
    NotMultiple(q, s - t);
    ZeroMultiple(q);
    assert m(s) != m(t);
  }

  lemma ZeroMultiple(q: int)
    ensures MultipleOf(q, 0)
  {
    assert Pair(q, 0);
  }

  /** The negated point is the multiple by -1. */
  lemma NegIsMultiple(m: int -> Affine, q: int)
    requires Cyclic(m, q) && m(1).Point?
    ensures m(-1) == NegPoint(m(1))
  {
    hide OnCurve, Chord, Tangent, MultipleOf, Cyclic;
    Multiples(m, q, 1, -1);
    Multiples(m, q, -1, 0);
    Multiples(m, q, 0, 0);
    ZeroMultiple(q);
    NoTwoTorsion(m, q, 1);
    SameAbscissa(K, m(-1), m(1));
  }

  // -------------------------------------------------------------------- bit values

  /** The integer the first i bits stand for, least significant first. */
  function BitsValue(b: seq<Fe>, i: nat): int
    requires i <= |b|
  {
    if i == 0 then 0 else BitsValue(b, i - 1) + (if b[i - 1] == 1 then Pow2(i - 1) else 0)
  }

  /** The same with the first bit taken to be 1. */
  function Assumed(b: seq<Fe>, i: nat): int
    requires 1 <= i <= |b|
  {
    BitsValue(b, i) + (if b[0] == 1 then 0 else 1)
  }

  lemma {:induction false} AssumedBound(b: seq<Fe>, i: nat)
    requires 1 <= i <= |b|
    ensures 1 <= Assumed(b, i) < Pow2(i)
  {
    if i == 1 {
      assert BitsValue(b, 1) == BitsValue(b, 0) + (if b[0] == 1 then Pow2(0) else 0);
      assert Pow2(0) == 1 && Pow2(1) == 2;
    } else {
      AssumedBound(b, i - 1);
      Pow2Double(i - 1);
    }
  }

  function BitValues(w: Assignment, bits: seq<Wire>): (b: seq<Fe>)
    ensures |b| == |bits|
  {
    seq(|bits|, i requires 0 <= i < |bits| => V(w, bits[i]))
  }

  ghost predicate AllBits(b: seq<Fe>) {
    forall i :: 0 <= i < |b| ==> IsBit(b[i])
  }

  ghost predicate WiresIn(bits: seq<Wire>, n: nat) {
    forall i :: 0 <= i < |bits| ==> In(bits[i], n)
  }

  /** The wires carry the given point and bits. */
  ghost predicate Inputs(w: Assignment, p: PointWires, bits: seq<Wire>, v: PointValue, b: seq<Fe>) {
    PV(w, p) == v && BitValues(w, bits) == b
  }

  lemma InputsKept(a: Assignment, w: Assignment, p: PointWires, bits: seq<Wire>)
    requires a <= w && PIn(p, |a|) && WiresIn(bits, |a|)
    ensures Inputs(w, p, bits, PV(a, p), BitValues(a, bits))
  {
    assert forall x :: In(x, |a|) ==> V(w, x) == V(a, x);
  }

  // -------------------------------------------------------------- incomplete loop

  /** One bit: the sum and the next doubling stay on multiples with different abscissae. */
  lemma IncompleteStep(m: int -> Affine, q: int, b: seq<Fe>, i: nat, split: nat)
    requires Cyclic(m, q) && 1 <= i < split <= |b| && Pow2(split) < q
    ensures var (s, t) := (Assumed(b, i), Pow2(i));
      && m(s).Point? && m(t).Point? && m(s).x != m(t).x && m(t).y != 0
      && AddPoints(K, m(s), m(t)) == m(s + t) && DoublePoint(K, m(t)) == m(Pow2(i + 1))
      && Assumed(b, i + 1) == (if b[i] == 1 then s + t else s)
  {
    hide Cyclic, AddPoints, Pow2;
    var (s, t) := (Assumed(b, i), Pow2(i));
    AssumedBound(b, i);
    Pow2Double(i);
    Pow2Mono(i + 1, split);
    DifferentAbscissae(m, q, s, t);
    Multiples(m, q, s, t);
    Multiples(m, q, t, t);
    NoTwoTorsion(m, q, t);
  }

  lemma FirstDouble(m: int -> Affine, q: int)
    requires Cyclic(m, q) && m(1).Point?
    ensures m(1).y != 0 && DoublePoint(K, m(1)) == m(2)
  {
    hide Cyclic, AddPoints;
    NoTwoTorsion(m, q, 1);
    Multiples(m, q, 1, 1);
  }

  /** The prover's values for the accumulator and the running power after i bits. */
  function LoopValue(p: Affine, b: seq<Fe>, i: nat): (r: (Affine, Affine))
    requires p.Point? && 1 <= i <= |b|
    ensures r.0.Point? && r.1.Point?
  {
    if i == 1 then (p, DoubleValue(p))
    else
      var (acc, pw) := LoopValue(p, b, i - 1);
      (if b[i - 1] == 1 then SumValue(acc, pw) else acc, DoubleValue(pw))
  }

  /** No step of the loop up to i bits is one the prover has no slope for. */
  predicate LoopWorks(p: Affine, b: seq<Fe>, i: nat)
    requires p.Point? && 1 <= i <= |b|
  {
    if i == 1 then DoubleWorks(p)
    else
      var (acc, pw) := LoopValue(p, b, i - 1);
      LoopWorks(p, b, i - 1) && SumWorks(acc, pw) && DoubleWorks(pw)
  }

  lemma LoopStart(p: Affine, b: seq<Fe>)
    requires p.Point? && |b| >= 1
    ensures LoopValue(p, b, 1) == (p, DoubleValue(p)) && (LoopWorks(p, b, 1) <==> DoubleWorks(p))
  {
  }

  lemma LoopNext(p: Affine, b: seq<Fe>, i: nat)
    requires p.Point? && 1 <= i < |b|
    ensures var (acc, pw) := LoopValue(p, b, i);
      && LoopValue(p, b, i + 1) == (if b[i] == 1 then SumValue(acc, pw) else acc, DoubleValue(pw))
      && (LoopWorks(p, b, i + 1) <==> LoopWorks(p, b, i) && SumWorks(acc, pw) && DoubleWorks(pw))
  {
    hide SumValue, DoubleValue, SumWorks, DoubleWorks;
  }

  /** The loop works for every point of large odd order, on its multiples. */
  lemma {:induction false} MultiplesWork(m: int -> Affine, q: int, b: seq<Fe>, i: nat, split: nat)
    requires Cyclic(m, q) && 1 <= i <= split <= |b| && Pow2(split) < q && m(1).Point?
    ensures LoopValue(m(1), b, i) == (m(Assumed(b, i)), m(Pow2(i))) && LoopWorks(m(1), b, i)
  {
    hide Cyclic, Pow2, Assumed, Through, Chord, Tangent, TangentRise;
    if i == 1 {
      FirstDouble(m, q);
      StartValues(b);
    } else {
      MultiplesWork(m, q, b, i - 1, split);
      IncompleteStep(m, q, b, i - 1, split);
    }
  }

  // An infinite point that carries the coordinates (0, 0), as the gadget's own infinity
  // does: the accumulator stays there, and the running power walks along y^2 = x^3.

  function Cusp(t: Fe): Affine {
    Point(Mul(t, t), Neg(Mul(t, Mul(t, t))))
  }

  lemma CuspNonzero(t: Fe)
    requires t != 0
    ensures Mul(t, t) != 0 && Neg(Mul(t, Mul(t, t))) != 0
  {
    hide Mul, Sub;
    NoZeroDivisors(t, t);
    NoZeroDivisors(t, Mul(t, t));
    SubIsZero(0, Mul(t, Mul(t, t)));
  }

  lemma CuspDouble(h: Fe)
    requires h != 0 && K.a == 0
    ensures Add(h, h) != 0 && DoubleWorks(Cusp(Add(h, h))) && DoubleValue(Cusp(Add(h, h))) == Cusp(h)
  {
    hide Mul, Add, Sub, Inv, TangentRise, Tangent;
    var (t, l) := (Add(h, h), Sub(0, Add(Add(h, h), h)));
    var (x, y) := (Mul(t, t), Neg(Mul(t, Mul(t, t))));
    TwoNonzero(h);
    CuspNonzero(t);
    CuspRise(h);
    TangentForced(l, x, y);
    CuspX(h);
    CuspY(h);
  }

  lemma CuspRise(h: Fe)
    requires K.a == 0
    ensures var (t, l) := (Add(h, h), Sub(0, Add(Add(h, h), h)));
      Mul(l, Add(Neg(Mul(t, Mul(t, t))), Neg(Mul(t, Mul(t, t))))) == TangentRise(K.a, Mul(t, t))
  {
    hide Mul, Add, Sub;
    var x := Mul(Add(h, h), Add(h, h));
    CuspSlope(h);
    AddZero(Add(Add(Mul(x, x), Mul(x, x)), Mul(x, x)));
  }

  lemma CuspSum(h: Fe)
    requires h != 0
    ensures SumWorks(Point(0, 0), Cusp(h)) && SumValue(Point(0, 0), Cusp(h)) == Point(0, 0)
  {
    hide Mul, Add, Sub, Inv, Chord;
    var (x, y, l) := (Mul(h, h), Neg(Mul(h, Mul(h, h))), Sub(0, h));
    CuspNonzero(h);
    CuspChord(h);
    AddZero(x);
    AddZero(y);
    AddZero(0);
    ChordForced(l, 0, 0, x, y);
    NegSquared(h);
    SubIsZero(x, x);
    MulOne(l);
    AddZero(Mul(l, l));
  }

  lemma CuspStart()
    requires K.a == 0
    ensures DoubleWorks(Point(0, 0)) && DoubleValue(Point(0, 0)) == Cusp(1)
  {
    hide Mul;
    MulOne(0);
    MulOne(1);
    MulOne(Sub(0, 1));
  }

  lemma CuspSlope(h: Fe)
    ensures Mul(Sub(0, Add(Add(h, h), h)), Add(Sub(0, Mul(Add(h, h), Mul(Add(h, h), Add(h, h)))), Sub(0,
            Mul(Add(h, h), Mul(Add(h, h), Add(h, h))))))
      == Add(Add(Mul(Mul(Add(h, h), Add(h, h)), Mul(Add(h, h), Add(h, h))), Mul(Mul(Add(h, h), Add(h, h)),
            Mul(Add(h, h), Add(h, h)))), Mul(Mul(Add(h, h), Add(h, h)), Mul(Add(h, h), Add(h, h))))
  {
    hide *;
    Hom();
    ROf(h); ROf(0);
    CuspSlopeI(h);
  }

  lemma CuspSlopeI(h: int)
    ensures IMul(ISub(0, IAdd(IAdd(h, h), h)), IAdd(ISub(0, IMul(IAdd(h, h), IMul(IAdd(h, h), IAdd(h, h)))),
            ISub(0, IMul(IAdd(h, h), IMul(IAdd(h, h), IAdd(h, h))))))
      == IAdd(IAdd(IMul(IMul(IAdd(h, h), IAdd(h, h)), IMul(IAdd(h, h), IAdd(h, h))), IMul(IMul(IAdd(h, h),
            IAdd(h, h)), IMul(IAdd(h, h), IAdd(h, h)))), IMul(IMul(IAdd(h, h), IAdd(h, h)), IMul(IAdd(h, h),
            IAdd(h, h))))
  {
  }

  lemma CuspX(h: Fe)
    ensures Sub(Sub(Mul(Sub(0, Add(Add(h, h), h)), Sub(0, Add(Add(h, h), h))), Mul(Add(h, h), Add(h, h))),
            Mul(Add(h, h), Add(h, h)))
      == Mul(h, h)
  {
    hide *;
    Hom();
    ROf(h); ROf(0);
    CuspXI(h);
  }

  lemma CuspXI(h: int)
    ensures ISub(ISub(IMul(ISub(0, IAdd(IAdd(h, h), h)), ISub(0, IAdd(IAdd(h, h), h))), IMul(IAdd(h, h), IAdd(h,
            h))), IMul(IAdd(h, h), IAdd(h, h)))
      == IMul(h, h)
  {
  }

  lemma CuspY(h: Fe)
    ensures Sub(Mul(Sub(0, Add(Add(h, h), h)), Sub(Mul(Add(h, h), Add(h, h)), Mul(h, h))), Sub(0, Mul(Add(h, h),
            Mul(Add(h, h), Add(h, h)))))
      == Sub(0, Mul(h, Mul(h, h)))
  {
    hide *;
    Hom();
    ROf(h); ROf(0);
    CuspYI(h);
  }

  lemma CuspYI(h: int)
    ensures ISub(IMul(ISub(0, IAdd(IAdd(h, h), h)), ISub(IMul(IAdd(h, h), IAdd(h, h)), IMul(h, h))), ISub(0,
            IMul(IAdd(h, h), IMul(IAdd(h, h), IAdd(h, h)))))
      == ISub(0, IMul(h, IMul(h, h)))
  {
  }

  lemma CuspChord(h: Fe)
    ensures Mul(Sub(0, h), Mul(h, h)) == Sub(0, Mul(h, Mul(h, h)))
  {
    hide *;
    Hom();
    ROf(h); ROf(0);
    CuspChordI(h);
  }

  lemma CuspChordI(h: int)
    ensures IMul(ISub(0, h), IMul(h, h)) == ISub(0, IMul(h, IMul(h, h)))
  {
  }

  lemma NegSquared(h: Fe)
    ensures Mul(Sub(0, h), Sub(0, h)) == Mul(h, h)
  {
    hide *;
    Hom();
    ROf(h); ROf(0);
    NegSquaredI(h);
  }

  lemma NegSquaredI(h: int)
    ensures IMul(ISub(0, h), ISub(0, h)) == IMul(h, h)
  {
  }

  lemma Halve(t: Fe) returns (h: Fe)
    requires t != 0
    ensures h != 0 && Add(h, h) == t
  {
    hide Mul, Inv, Add;
    h := Mul(t, Inv(2));
    MulInv(2);
    MulAssoc(t, Inv(2), 2);
    MulComm(Inv(2), 2);
    MulOne(t);
    MulComm(h, 2);
    ThreeTimes(h, h);
    AddZero(0);
  }

  lemma {:induction false} ZeroLoop(b: seq<Fe>, i: nat) returns (t: Fe)
    requires 1 <= i <= |b| && K.a == 0
    ensures t != 0 && LoopValue(Point(0, 0), b, i) == (Point(0, 0), Cusp(t)) && LoopWorks(Point(0, 0), b, i)
  {
    hide SumValue, DoubleValue, SumWorks, DoubleWorks, Cusp;
    if i == 1 {
      CuspStart();
      t := 1;
    } else {
      var s := ZeroLoop(b, i - 1);
      t := Halve(s);
      CuspSum(s);
      CuspDouble(t);
      LoopNext(Point(0, 0), b, i - 1);
    }
  }

  /** The prover can always multiply the gadget's own infinity on curves y^2 = x^3 + b,
      and never on others. */
  lemma {:induction false} ZeroLoopWorks(b: seq<Fe>, i: nat)
    requires 1 <= i <= |b|
    ensures LoopWorks(Point(0, 0), b, i) <==> K.a == 0
  {
    hide SumValue, DoubleValue, SumWorks, LoopValue, Mul, Add;
    if K.a == 0 {
      var t := ZeroLoop(b, i);
    } else if i == 1 {
      MulOne(0);
      AddZero(0);
      AddZero(K.a);
      LoopStart(Point(0, 0), b);
    } else {
      ZeroLoopWorks(b, i - 1);
      LoopNext(Point(0, 0), b, i - 1);
    }
  }

  method IncompleteLoop(cs: CS, p: PointWires, bits: seq<Wire>, split: nat,
                        ghost m: int -> Affine, ghost q: int, ghost v: PointValue, ghost b: seq<Fe>)
    returns (acc: CoordWires, pw: CoordWires)
    requires cs.Valid() && PIn(p, |cs.aux|) && WiresIn(bits, |cs.aux|) && 1 <= split <= |bits|
    requires Inputs(cs.aux, p, bits, v, b) && AllBits(b) && |b| == |bits|
    requires v.inf == 0 ==> Cyclic(m, q) && Pow2(split) < q && m(1) == Point(v.x, v.y)
    modifies cs
    ensures cs.Grown(old(cs.aux), old(cs.constraints)) && CIn(acc, |cs.aux|) && CIn(pw, |cs.aux|)
    ensures forall w {:trigger Sat(w, cs.constraints)} :: Sat(w, cs.constraints) && Inputs(w, p, bits, v, b) && v.inf == 0 ==>
              CV(w, acc) == m(Assumed(b, split)) && CV(w, pw) == m(Pow2(split))
    ensures (CV(cs.aux, acc), CV(cs.aux, pw)) == LoopValue(Point(v.x, v.y), b, split)
    ensures cs.Honest() <==> old(cs.Honest()) && LoopWorks(Point(v.x, v.y), b, split)
  {
    hide Sat, Cyclic, AddPoints, DoublePoint, Pow2, Assumed, Inputs, V, AllBits, SumValue, DoubleValue, SumWorks, DoubleWorks,
      ConstraintIn, LoopValue, LoopWorks;
    ghost var (a0, s0, h0) := (cs.aux, cs.constraints, cs.Honest());
    InputPoint(a0, p, bits, v, b);
    if v.inf == 0 { FirstDouble(m, q); }
    acc := CoordWires(p.x, p.y);
    pw := DoubleIncomplete(cs, acc);
    HonestBefore(a0, cs.aux, s0);
    HonestInputs(a0, cs.aux, p, bits, v, b);
    InputPoint(cs.aux, p, bits, v, b);
    StartValues(b);
    LoopStart(Point(v.x, v.y), b);
    forall w | Inputs(w, p, bits, v, b) && v.inf == 0 ensures CV(w, CoordWires(p.x, p.y)) == m(1) {
      InputPoint(w, p, bits, v, b);
    }
    for i := 1 to split
      invariant cs.Grown(a0, s0) && CIn(acc, |cs.aux|) && CIn(pw, |cs.aux|)
      invariant forall w {:trigger Sat(w, cs.constraints)} :: Sat(w, cs.constraints) && Inputs(w, p, bits, v, b) && v.inf == 0 ==>
                  CV(w, acc) == m(Assumed(b, i)) && CV(w, pw) == m(Pow2(i))
      invariant (CV(cs.aux, acc), CV(cs.aux, pw)) == LoopValue(Point(v.x, v.y), b, i)
      invariant cs.Honest() <==> h0 && LoopWorks(Point(v.x, v.y), b, i)
    {
      if v.inf == 0 { IncompleteStep(m, q, b, i, split); }
      LoopNext(Point(v.x, v.y), b, i);
      acc, pw := IncompleteBit(cs, acc, pw, bits[i], a0, p, bits, m, i, v, b);
    }
  }

  lemma StartValues(b: seq<Fe>)
    requires |b| >= 1
    ensures Assumed(b, 1) == 1 && Pow2(1) == 2
  {
    assert BitsValue(b, 1) == BitsValue(b, 0) + (if b[0] == 1 then Pow2(0) else 0);
  }

  lemma InputPoint(w: Assignment, p: PointWires, bits: seq<Wire>, v: PointValue, b: seq<Fe>)
    requires Inputs(w, p, bits, v, b)
    ensures CV(w, CoordWires(p.x, p.y)) == Point(v.x, v.y) && V(w, p.inf) == v.inf
    ensures |b| == |bits| && forall i :: 0 <= i < |bits| ==> V(w, bits[i]) == b[i]
  {
  }

  method IncompleteBit(cs: CS, acc0: CoordWires, pw0: CoordWires, bit: Wire, ghost a0: Assignment, ghost p: PointWires,
                       ghost bits: seq<Wire>, ghost m: int -> Affine, ghost i: nat, ghost v: PointValue, ghost b: seq<Fe>)
    returns (acc: CoordWires, pw: CoordWires)
    requires cs.Valid() && CIn(acc0, |cs.aux|) && CIn(pw0, |cs.aux|) && In(bit, |cs.aux|)
    requires a0 <= cs.aux && PIn(p, |a0|) && WiresIn(bits, |a0|) && Inputs(a0, p, bits, v, b)
    requires 1 <= i && i + 1 <= |b| == |bits| && bit == bits[i] && AllBits(b)
    requires forall w {:trigger Sat(w, cs.constraints)} :: Sat(w, cs.constraints) && Inputs(w, p, bits, v, b) && v.inf == 0 ==>
               CV(w, acc0) == m(Assumed(b, i)) && CV(w, pw0) == m(Pow2(i))
    requires v.inf == 0 ==> var (s, t) := (Assumed(b, i), Pow2(i));
      && m(s).Point? && m(t).Point? && m(s).x != m(t).x && m(t).y != 0
      && AddPoints(K, m(s), m(t)) == m(s + t) && DoublePoint(K, m(t)) == m(Pow2(i + 1))
      && Assumed(b, i + 1) == (if b[i] == 1 then s + t else s)
    modifies cs
    ensures cs.Grown(old(cs.aux), old(cs.constraints)) && CIn(acc, |cs.aux|) && CIn(pw, |cs.aux|)
    ensures forall w {:trigger Sat(w, cs.constraints)} :: Sat(w, cs.constraints) && Inputs(w, p, bits, v, b) && v.inf == 0 ==>
              CV(w, acc) == m(Assumed(b, i + 1)) && CV(w, pw) == m(Pow2(i + 1))
    ensures var (s, t) := (old(CV(cs.aux, acc0)), old(CV(cs.aux, pw0)));
      && CV(cs.aux, acc) == (if b[i] == 1 then SumValue(s, t) else s) && CV(cs.aux, pw) == DoubleValue(t)
      && (cs.Honest() <==> old(cs.Honest()) && SumWorks(s, t) && DoubleWorks(t))
  {
    hide Sat, AddPoints, DoublePoint, Pow2, Assumed, Inputs, V, SumValue, DoubleValue, SumWorks, DoubleWorks, ConstraintIn;
    ghost var (before, s0) := (cs.aux, cs.constraints);
    HonestInputs(a0, cs.aux, p, bits, v, b);
    forall w | Inputs(w, p, bits, v, b) ensures V(w, bit) == b[i] {
      InputPoint(w, p, bits, v, b);
    }
    var temp := AddIncomplete(cs, acc0, pw0);
    HonestBefore(before, cs.aux, s0);
    ghost var (a1, s1) := (cs.aux, cs.constraints);
    HonestInputs(a0, cs.aux, p, bits, v, b);
    acc := SelectCoords(cs, temp, acc0, bit);
    HonestBefore(a1, cs.aux, s1);
    ghost var (a2, s2) := (cs.aux, cs.constraints);
    HonestInputs(a0, cs.aux, p, bits, v, b);
    pw := DoubleIncomplete(cs, pw0);
    HonestBefore(a2, cs.aux, s2);
  }

  lemma HonestInputs(a0: Assignment, a: Assignment, p: PointWires, bits: seq<Wire>, v: PointValue, b: seq<Fe>)
    requires a0 <= a && PIn(p, |a0|) && WiresIn(bits, |a0|) && Inputs(a0, p, bits, v, b)
    ensures Inputs(a, p, bits, v, b)
  {
    InputsKept(a0, a, p, bits);
  }

  // --------------------------------------------------------- removing the first bit

  /** What a partial result says: at infinity it stays there, elsewhere it is the n-th multiple. */
  ghost predicate Result(v: PointValue, o: PointValue, m: int -> Affine, n: int) {
    IsBit(o.inf) && (v.inf == 1 ==> o.inf == 1) && (v.inf == 0 ==> PointOf(o) == m(n))
  }

  /** The sum of the assumed multiple and the negated point, or the multiple itself. */
  lemma SlackRemoved(v: PointValue, a: PointValue, minus: PointValue, o: PointValue, b: seq<Fe>, split: nat,
                     m: int -> Affine, q: int)
    requires IsBit(v.inf) && 1 <= split <= |b| && AllBits(b) && a.inf == v.inf
    requires v.inf == 0 ==> Cyclic(m, q) && m(1) == Point(v.x, v.y) && Pow2(split) < q
    requires v.inf == 0 ==> Point(a.x, a.y) == m(Assumed(b, split))
    requires NonSingular(a) ==> AddRel(a, v.(y := Neg(v.y)), minus)
    requires o == if b[0] == 1 then a else minus
    ensures Result(v, o, m, BitsValue(b, split))
  {
    hide Cyclic, AddPoints, Neg, TangentRise;
    if v.inf == 0 {
      var s := Assumed(b, split);
      NoTwoTorsion(m, q, s);
      NegIsMultiple(m, q);
      Multiples(m, q, s, -1);
    } else {
      InfinitySum();
    }
  }

  lemma InfinitySum()
    ensures AddPoints(K, Infinity, Infinity) == Infinity
  {
  }

  /** The accumulator is not its own opposite, so the complete addition has a witness. */
  lemma SlackHonest(b: seq<Fe>, split: nat, m: int -> Affine, q: int, x: Fe, y: Fe)
    requires 1 <= split <= |b| && Cyclic(m, q) && Point(x, y) == m(Assumed(b, split))
    ensures y != 0
  {
    hide Cyclic;
    NoTwoTorsion(m, q, Assumed(b, split));
  }

  method RemoveSlack(cs: CS, p: PointWires, acc: CoordWires, bits: seq<Wire>, ghost a0: Assignment, ghost split: nat,
                     ghost m: int -> Affine, ghost q: int, ghost v: PointValue, ghost b: seq<Fe>)
    returns (res: PointWires)
    requires cs.Valid() && CIn(acc, |cs.aux|) && 1 <= split <= |bits| == |b|
    requires a0 <= cs.aux && PIn(p, |a0|) && WiresIn(bits, |a0|) && Inputs(a0, p, bits, v, b)
    requires IsBit(v.inf) && AllBits(b)
    requires v.inf == 0 ==> Cyclic(m, q) && Pow2(split) < q && m(1) == Point(v.x, v.y)
    requires forall w {:trigger Sat(w, cs.constraints)} :: Sat(w, cs.constraints) && Inputs(w, p, bits, v, b) && v.inf == 0 ==>
               CV(w, acc) == m(Assumed(b, split))
    modifies cs
    ensures cs.Grown(old(cs.aux), old(cs.constraints)) && PIn(res, |cs.aux|)
    ensures forall w {:trigger Sat(w, cs.constraints)} :: Sat(w, cs.constraints) && Inputs(w, p, bits, v, b) ==>
              Result(v, PV(w, res), m, BitsValue(b, split))
    ensures old(cs.Honest()) ==> cs.Honest()
  {
    hide Sat, Cyclic, Pow2, Assumed, BitsValue, Inputs, V, AddRel, NonSingular, CanDouble, Result, PointOf;
    HonestInputs(a0, cs.aux, p, bits, v, b);
    InputPoint(cs.aux, p, bits, v, b);
    var acc1 := PointWires(acc.x, acc.y, p.inf);
    var neg := Negate(cs, p);
    HonestInputs(a0, cs.aux, p, bits, v, b);
    InputPoint(cs.aux, p, bits, v, b);
    if v.inf == 0 && cs.Honest() { SlackHonest(b, split, m, q, V(cs.aux, acc.x), V(cs.aux, acc.y)); }
    var minus := AddComplete(cs, acc1, neg);
    HonestInputs(a0, cs.aux, p, bits, v, b);
    InputPoint(cs.aux, p, bits, v, b);
    res := SelectPoint(cs, acc1, minus, bits[0]);
    forall w | Sat(w, cs.constraints) && Inputs(w, p, bits, v, b)
      ensures Result(v, PV(w, res), m, BitsValue(b, split))
    {
      InputPoint(w, p, bits, v, b);
      SlackRemoved(v, PV(w, acc1), PV(w, minus), PV(w, res), b, split, m, q);
    }
  }

  method AllocZero(cs: CS) returns (z: Wire)
    requires cs.Valid()
    modifies cs
    ensures cs.Grown(old(cs.aux), old(cs.constraints)) && In(z, |cs.aux|)
    ensures forall w {:trigger Sat(w, cs.constraints)} :: Sat(w, cs.constraints) ==> V(w, z) == 0
    ensures old(cs.Honest()) ==> cs.Honest()
  {
    hide Mul, Sat;
    z := cs.Alloc(0);
    cs.Enforce(L0, L0, L1(Pos(z)));
    MulOne(0);
  }

  /** Clears the coordinates when the input was infinite. */
  method ClearIfInfinite(cs: CS, res: PointWires, inf: Wire) returns (r: PointWires)
    requires cs.Valid() && PIn(res, |cs.aux|) && In(inf, |cs.aux|)
    modifies cs
    ensures cs.Grown(old(cs.aux), old(cs.constraints)) && PIn(r, |cs.aux|)
    ensures forall w {:trigger Sat(w, cs.constraints)} :: Sat(w, cs.constraints) && IsBit(V(w, inf)) ==>
              PV(w, r) == if V(w, inf) == 1 then PointValue(0, 0, V(w, res.inf)) else PV(w, res)
    ensures old(cs.Honest()) && IsBit(V(cs.aux, inf)) ==> cs.Honest()
  {
    hide Sat, V;
    var zero := AllocZero(cs);
    var x := ConditionallySelect(cs, zero, res.x, inf);
    var y := ConditionallySelect(cs, zero, res.y, inf);
    r := PointWires(x, y, res.inf);
  }

  // ----------------------------------------------------------------- complete tail

  /** The power being added: at infinity flagged so, elsewhere the 2^i-th multiple. */
  ghost predicate PowerIs(v: PointValue, o: PointValue, m: int -> Affine, i: nat) {
    o.inf == v.inf && (v.inf == 0 ==> Point(o.x, o.y) == m(Pow2(i)))
  }

  lemma CompleteStep(v: PointValue, a: PointValue, pc: PointValue, temp: PointValue, o: PointValue, next: PointValue,
                     b: seq<Fe>, i: nat, m: int -> Affine, q: int)
    requires IsBit(v.inf) && i < |b| && AllBits(b) && (v.inf == 0 ==> Cyclic(m, q))
    requires Result(v, a, m, BitsValue(b, i)) && PowerIs(v, pc, m, i)
    requires NonSingular(a) ==> AddRel(a, pc, temp)
    requires o == if b[i] == 1 then temp else a
    requires DoubleRel(pc, next)
    ensures Result(v, o, m, BitsValue(b, i + 1)) && PowerIs(v, next, m, i + 1)
  {
    hide Cyclic, TangentRise, Pow2, AddPoints;
    if v.inf == 0 {
      var (n, t) := (BitsValue(b, i), Pow2(i));
      NoTwoTorsion(m, q, n);
      NoTwoTorsion(m, q, t);
      Multiples(m, q, n, t);
      Multiples(m, q, t, t);
      Pow2Double(i);
      DoubleIsThrough(pc.x, pc.y);
      assert AddPoints(K, m(t), m(t)) == DoublePoint(K, m(t));
      assert m(t + t) == Point(next.x, next.y);
    } else {
      InfinitySum();
    }
  }

  lemma CompleteHonest(v: PointValue, a: PointValue, pc: PointValue, b: seq<Fe>, i: nat, m: int -> Affine, q: int)
    requires IsBit(v.inf) && i < |b| && (v.inf == 0 ==> Cyclic(m, q))
    requires Result(v, a, m, BitsValue(b, i)) && PowerIs(v, pc, m, i)
    ensures IsBit(a.inf) && IsBit(pc.inf) && (a.inf == 1 || a.y != 0) && (pc.inf == 1 || pc.y != 0)
  {
    hide Cyclic, Pow2;
    if v.inf == 0 {
      NoTwoTorsion(m, q, BitsValue(b, i));
      NoTwoTorsion(m, q, Pow2(i));
    }
  }

  method CompleteBit(cs: CS, acc0: PointWires, pc0: PointWires, bit: Wire, ghost a0: Assignment, ghost p: PointWires,
                     ghost bits: seq<Wire>, ghost m: int -> Affine, ghost q: int, ghost i: nat, ghost v: PointValue, ghost b: seq<Fe>)
    returns (acc: PointWires, pc: PointWires)
    requires cs.Valid() && PIn(acc0, |cs.aux|) && PIn(pc0, |cs.aux|) && In(bit, |cs.aux|)
    requires a0 <= cs.aux && PIn(p, |a0|) && WiresIn(bits, |a0|) && Inputs(a0, p, bits, v, b)
    requires i < |b| == |bits| && bit == bits[i] && AllBits(b) && IsBit(v.inf) && (v.inf == 0 ==> Cyclic(m, q))
    requires forall w {:trigger Sat(w, cs.constraints)} :: Sat(w, cs.constraints) && Inputs(w, p, bits, v, b) ==>
               Result(v, PV(w, acc0), m, BitsValue(b, i)) && PowerIs(v, PV(w, pc0), m, i)
    modifies cs
    ensures cs.Grown(old(cs.aux), old(cs.constraints)) && PIn(acc, |cs.aux|) && PIn(pc, |cs.aux|)
    ensures forall w {:trigger Sat(w, cs.constraints)} :: Sat(w, cs.constraints) && Inputs(w, p, bits, v, b) ==>
              Result(v, PV(w, acc), m, BitsValue(b, i + 1)) && PowerIs(v, PV(w, pc), m, i + 1)
    ensures old(cs.Honest()) ==> cs.Honest()
  {
    hide Sat, Cyclic, Pow2, BitsValue, Inputs, V, AddRel, NonSingular, CanDouble, Result, PowerIs, DoubleRel, PointOf;
    ghost var h0 := cs.Honest();
    HonestInputs(a0, cs.aux, p, bits, v, b);
    InputPoint(cs.aux, p, bits, v, b);
    if h0 { CompleteHonest(v, PV(cs.aux, acc0), PV(cs.aux, pc0), b, i, m, q); }
    var temp := AddComplete(cs, acc0, pc0);
    acc := SelectPoint(cs, temp, acc0, bit);
    pc := Double(cs, pc0);
    forall w | Sat(w, cs.constraints) && Inputs(w, p, bits, v, b)
      ensures Result(v, PV(w, acc), m, BitsValue(b, i + 1)) && PowerIs(v, PV(w, pc), m, i + 1)
    {
      InputPoint(w, p, bits, v, b);
      ResultBits(v, PV(w, acc0), PV(w, pc0), b, i, m);
      CompleteStep(v, PV(w, acc0), PV(w, pc0), PV(w, temp), PV(w, acc), PV(w, pc), b, i, m, q);
    }
  }

  method CompleteTail(cs: CS, acc0: PointWires, pc0: PointWires, bits: seq<Wire>, ghost a0: Assignment, ghost p: PointWires,
                      ghost m: int -> Affine, ghost q: int, start: nat, ghost v: PointValue, ghost b: seq<Fe>)
    returns (acc: PointWires)
    requires cs.Valid() && PIn(acc0, |cs.aux|) && PIn(pc0, |cs.aux|)
    requires a0 <= cs.aux && PIn(p, |a0|) && WiresIn(bits, |a0|) && Inputs(a0, p, bits, v, b)
    requires start <= |b| == |bits| && AllBits(b) && IsBit(v.inf) && (v.inf == 0 ==> Cyclic(m, q))
    requires forall w {:trigger Sat(w, cs.constraints)} :: Sat(w, cs.constraints) && Inputs(w, p, bits, v, b) ==>
               Result(v, PV(w, acc0), m, BitsValue(b, start)) && PowerIs(v, PV(w, pc0), m, start)
    modifies cs
    ensures cs.Grown(old(cs.aux), old(cs.constraints)) && PIn(acc, |cs.aux|)
    ensures forall w {:trigger Sat(w, cs.constraints)} :: Sat(w, cs.constraints) && Inputs(w, p, bits, v, b) ==>
              Result(v, PV(w, acc), m, BitsValue(b, |bits|))
    ensures old(cs.Honest()) ==> cs.Honest()
  {
    hide Sat, Cyclic, Pow2, BitsValue, Inputs, V, Result, PowerIs, AllBits, ConstraintIn;
    ghost var (a1, s1, h1) := (cs.aux, cs.constraints, cs.Honest());
    acc := acc0;
    var pc := pc0;
    for i := start to |bits|
      invariant cs.Grown(a1, s1) && PIn(acc, |cs.aux|) && PIn(pc, |cs.aux|)
      invariant forall w {:trigger Sat(w, cs.constraints)} :: Sat(w, cs.constraints) && Inputs(w, p, bits, v, b) ==>
                  Result(v, PV(w, acc), m, BitsValue(b, i)) && PowerIs(v, PV(w, pc), m, i)
      invariant h1 ==> cs.Honest()
    {
      acc, pc := CompleteBit(cs, acc, pc, bits[i], a0, p, bits, m, q, i, v, b);
    }
  }

  lemma ResultBits(v: PointValue, a: PointValue, pc: PointValue, b: seq<Fe>, i: nat, m: int -> Affine)
    requires i <= |b| && IsBit(v.inf) && Result(v, a, m, BitsValue(b, i)) && PowerIs(v, pc, m, i)
    ensures IsBit(a.inf) && IsBit(pc.inf)
  {
  }

  // ------------------------------------------------------------ scalar multiplication

  lemma StartOfTail(v: PointValue, res: PointValue, cleared: PointValue, pc: PointValue, pw: Affine, m: int -> Affine, n: int, i: nat)
    requires IsBit(v.inf) && Result(v, res, m, n) && pc.inf == v.inf && pw == Point(pc.x, pc.y)
    requires cleared == if v.inf == 1 then PointValue(0, 0, res.inf) else res
    requires v.inf == 0 ==> pw == m(Pow2(i))
    ensures Result(v, cleared, m, n) && PowerIs(v, pc, m, i)
  {
  }

  /** How many bits the incomplete loop takes. */
  function SplitLength(n: nat, numBits: nat): (k: nat)
    requires n >= 1 && numBits >= 3
    ensures 1 <= k <= n && k <= numBits - 2
  {
    if n <= numBits - 2 then n else numBits - 2
  }

  /** For every bit string and every input point of odd order above 2^(NUM_BITS - 2):
      under every assignment that satisfies the constraints and carries the inputs, the
      output is the multiple the bits stand for, and the prover's values satisfy the
      constraints.  For an input flagged infinite, every satisfying assignment outputs
      infinity, and the prover's values satisfy the constraints exactly when the loop
      works on whatever coordinates it carries. */
  method ScalarMul(cs: CS, p: PointWires, bits: seq<Wire>, numBits: nat, ghost m: int -> Affine, ghost q: int)
    returns (acc: PointWires)
    requires cs.Valid() && PIn(p, |cs.aux|) && WiresIn(bits, |cs.aux|) && |bits| >= 1 && numBits >= 3
    requires IsBit(V(cs.aux, p.inf)) && AllBits(BitValues(cs.aux, bits))
    requires V(cs.aux, p.inf) == 0 ==>
               Cyclic(m, q) && Pow2(numBits - 2) < q && m(1) == Point(V(cs.aux, p.x), V(cs.aux, p.y))
    modifies cs
    ensures cs.Grown(old(cs.aux), old(cs.constraints)) && PIn(acc, |cs.aux|)
    ensures forall w {:trigger Sat(w, cs.constraints)} ::
              Sat(w, cs.constraints) && Inputs(w, p, bits, old(PV(cs.aux, p)), old(BitValues(cs.aux, bits))) ==>
              Result(old(PV(cs.aux, p)), PV(w, acc), m, BitsValue(old(BitValues(cs.aux, bits)), |bits|))
    ensures var (v, b) := (old(PV(cs.aux, p)), old(BitValues(cs.aux, bits)));
      old(cs.Honest()) ==> (cs.Honest() <==> v.inf == 0 || LoopWorks(Point(v.x, v.y), b, SplitLength(|b|, numBits)))
  {
    hide Sat, Cyclic, Pow2, BitsValue, Assumed, V, Result, PowerIs, PointOf, AllBits, ConstraintIn, LoopWorks, LoopValue;
    ghost var (a0, s0, h0) := (cs.aux, cs.constraints, cs.Honest());
    ghost var (v, b) := (PV(cs.aux, p), BitValues(cs.aux, bits));
    InputsKept(a0, cs.aux, p, bits);
    hide Inputs;
    var splitLen := SplitLength(|bits|, numBits);
    if v.inf == 0 { Pow2Mono(splitLen, numBits - 2); }
    var accInc, pw := IncompleteLoop(cs, p, bits, splitLen, m, q, v, b);
    ghost var (a1, s1, h1) := (cs.aux, cs.constraints, cs.Honest());
    if v.inf == 0 { MultiplesWork(m, q, b, splitLen, splitLen); }
    var res := RemoveSlack(cs, p, accInc, bits, a0, splitLen, m, q, v, b);
    HonestInputs(a0, cs.aux, p, bits, v, b);
    InputPoint(cs.aux, p, bits, v, b);
    acc := ClearIfInfinite(cs, res, p.inf);
    var pc := PointWires(pw.x, pw.y, p.inf);
    forall w | Sat(w, cs.constraints) && Inputs(w, p, bits, v, b)
      ensures Result(v, PV(w, acc), m, BitsValue(b, splitLen)) && PowerIs(v, PV(w, pc), m, splitLen)
    {
      InputPoint(w, p, bits, v, b);
      StartOfTail(v, PV(w, res), PV(w, acc), PV(w, pc), CV(w, pw), m, BitsValue(b, splitLen), splitLen);
    }
    acc := CompleteTail(cs, acc, pc, bits, a0, p, m, q, splitLen, v, b);
    HonestBefore(a1, cs.aux, s1);
  }
}
