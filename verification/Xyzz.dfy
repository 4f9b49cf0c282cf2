/** Bucket coordinates (X, Y, ZZ, ZZZ) of the multi-scalar product: doubling, full
    addition and mixed addition refine the affine chord-and-tangent law on
    y^2 = x^3 + b, and every bucket built from curve points stays on the curve. */
module Xyzz {
  import opened Wrappers
  import opened PrimeField
  import opened FieldLaws
  import opened Curve

  /** The constant term of the curve; the coordinates assume a = 0. */
  const COEFF_B: Fe

  const CURVE := Params(0, COEFF_B)

  function Cube(z: Fe): Fe {
    Mul(z, Mul(z, z))
  }

  /** The coordinates stand for the affine point p. */
  predicate Rep(x: Fe, y: Fe, zz: Fe, zzz: Fe, p: Affine) {
    && Mul(zzz, zzz) == Cube(zz)
    && match p
       case Infinity => zz == 0
       case Point(px, py) => zz != 0 && x == Mul(px, zz) && y == Mul(py, zzz)
  }

  /** The affine point of coordinates with ZZ^3 = ZZZ^2: (X/ZZ, Y/ZZZ). */
  function ToAffine(x: Fe, y: Fe, zz: Fe, zzz: Fe): Affine {
    if zz == 0 then Infinity else Point(Mul(x, Inv(zz)), Mul(y, Inv(zzz)))
  }

  lemma CubeNonzero(zz: Fe, zzz: Fe)
    requires Mul(zzz, zzz) == Cube(zz)
    ensures zz == 0 <==> zzz == 0
  {
    hide Mul;
    NoZeroDivisors(zzz, zzz);
    NoZeroDivisors(zz, Mul(zz, zz));
    NoZeroDivisors(zz, zz);
  }

  lemma QuotientTimes(x: Fe, z: Fe)
    requires z != 0
    ensures Mul(Mul(x, Inv(z)), z) == x && Mul(Mul(x, z), Inv(z)) == x
  {
    hide *;
    MulInv(z);
    MulAssoc(x, Inv(z), z);
    MulAssoc(x, z, Inv(z));
    MulOne(x);
  }

  /** Coordinates stand for exactly one affine point. */
  lemma RepIsAffine(x: Fe, y: Fe, zz: Fe, zzz: Fe, p: Affine)
    ensures Rep(x, y, zz, zzz, p) <==> Mul(zzz, zzz) == Cube(zz) && p == ToAffine(x, y, zz, zzz)
  {
    hide Mul, Cube, Inv;
    if Mul(zzz, zzz) == Cube(zz) {
      CubeNonzero(zz, zzz);
      if zz != 0 {
        QuotientTimes(x, zz);
        QuotientTimes(y, zzz);
        if p.Point? {
          QuotientTimes(p.x, zz);
          QuotientTimes(p.y, zzz);
        }
      }
    }
  }

  // ------------------------------------------------------------------- doubling

  /** The doubling formulas on a finite point that is not its own opposite. */
  lemma DoubleFormula(px: Fe, py: Fe, z: Fe, t: Fe, u: Fe, v: Fe, w: Fe, s: Fe, m: Fe, x3: Fe, y3: Fe)
    requires z != 0 && py != 0 && Mul(t, t) == Cube(z)
    requires u == Dbl(Mul(py, t)) && v == Sq(u) && w == Mul(u, v) && s == Mul(Mul(px, z), v)
    requires m == Add(Dbl(Sq(Mul(px, z))), Sq(Mul(px, z)))
    requires x3 == Sub(Sq(m), Dbl(s)) && y3 == Sub(Mul(m, Sub(s, x3)), Mul(w, Mul(py, t)))
    ensures Rep(x3, y3, Mul(z, v), Mul(t, w), AddPoints(CURVE, Point(px, py), Point(px, py)))
  {
    hide *;
    DoubleParts(px, py, z, t, u, v, w, s, m);
    DoubleResult(px, py);
    DoubleScaled(px, py, z, t, v, w, s, m, x3, y3, Tangent(0, px, py));
  }

  lemma DoubleScaled(px: Fe, py: Fe, z: Fe, t: Fe, v: Fe, w: Fe, s: Fe, m: Fe, x3: Fe, y3: Fe, l: Fe)
    requires z != 0 && py != 0 && Mul(t, t) == Cube(z)
    requires v == Mul(Mul(Add(py, py), Add(py, py)), Cube(z))
    requires s == Mul(px, Mul(z, v)) && w == Mul(Mul(Add(py, py), t), v)
    requires m == Mul(Mul(l, Add(py, py)), Mul(z, z))
    requires x3 == Sub(Sq(m), Dbl(s)) && y3 == Sub(Mul(m, Sub(s, x3)), Mul(w, Mul(py, t)))
    ensures Rep(x3, y3, Mul(z, v), Mul(t, w), Through(l, px, py, px))
  {
    hide *;
    var d := Add(py, py);
    var third := Sub(Sub(Mul(l, l), px), px);
    var thirdY := Sub(Mul(l, Sub(px, third)), py);
    DoubleX(l, d, px, z, v, s, m);
    DoubleY(l, d, px, py, z, t, v, w, s, m, third);
    DoubleValid(d, z, t, v, w);
    DoubleNonzero(d, t, v, z, py);
    NoZeroDivisors(z, v);
    FiniteRep(x3, y3, Mul(z, v), Mul(t, w), third, thirdY);
    ThroughIs(l, px, py, px);
  }

  lemma ThroughIs(l: Fe, x1: Fe, y1: Fe, x2: Fe)
    ensures Through(l, x1, y1, x2)
         == Point(Sub(Sub(Mul(l, l), x1), x2), Sub(Mul(l, Sub(x1, Sub(Sub(Mul(l, l), x1), x2))), y1))
  {
    hide Mul, Sub;
  }

  lemma DoubleResult(px: Fe, py: Fe)
    requires py != 0
    ensures AddPoints(CURVE, Point(px, py), Point(px, py)) == Through(Tangent(0, px, py), px, py, px)
  {
    hide Mul, Inv, Sub, Tangent, Through;
  }

  lemma DoubleX(l: Fe, d: Fe, px: Fe, z: Fe, v: Fe, s: Fe, m: Fe)
    requires v == Mul(Mul(d, d), Cube(z)) && s == Mul(px, Mul(z, v)) && m == Mul(Mul(l, d), Mul(z, z))
    ensures Sub(Sq(m), Dbl(s)) == Mul(Sub(Sub(Mul(l, l), px), px), Mul(z, v))
  {
    hide Mul, Add, Sub;
    DoubleLead(d, l, z);
    DoubleCollect(Mul(l, l), Mul(z, v), px);
  }

  lemma DoubleY(l: Fe, d: Fe, px: Fe, py: Fe, z: Fe, t: Fe, v: Fe, w: Fe, s: Fe, m: Fe, third: Fe)
    requires Mul(t, t) == Cube(z) && s == Mul(px, Mul(z, v)) && m == Mul(Mul(l, d), Mul(z, z))
    requires w == Mul(Mul(d, t), v)
    ensures Sub(Mul(m, Sub(s, Mul(third, Mul(z, v)))), Mul(w, Mul(py, t)))
         == Mul(Sub(Mul(l, Sub(px, third)), py), Mul(t, w))
  {
    hide Mul, Sub;
    DoubleY1(d, l, v, px, third, z);
    DoubleY2(d, t, v, py);
    DoubleZZZ(d, t, v);
    SubMul(Mul(l, Sub(px, third)), py, Mul(Mul(d, v), Cube(z)));
  }

  lemma FiniteRep(x: Fe, y: Fe, zz: Fe, zzz: Fe, px: Fe, py: Fe)
    requires zz != 0 && Mul(zzz, zzz) == Cube(zz) && x == Mul(px, zz) && y == Mul(py, zzz)
    ensures Rep(x, y, zz, zzz, Point(px, py))
  {
  }

  lemma DoubleNonzero(d: Fe, t: Fe, v: Fe, z: Fe, py: Fe)
    requires d == Add(py, py) && py != 0 && z != 0 && Mul(t, t) == Cube(z) && v == Mul(Mul(d, d), Cube(z))
    ensures v != 0
  {
    hide Mul, Add, Cube;
    CubeNonzero(z, t);
    TwoNonzero(py);
    NoZeroDivisors(d, d);
    NoZeroDivisors(t, t);
    NoZeroDivisors(Mul(d, d), Cube(z));
  }

  /** The intermediate values of a doubling, with the slope taken out. */
  lemma DoubleParts(px: Fe, py: Fe, z: Fe, t: Fe, u: Fe, v: Fe, w: Fe, s: Fe, m: Fe)
    requires py != 0 && Mul(t, t) == Cube(z)
    requires u == Dbl(Mul(py, t)) && v == Sq(u) && w == Mul(u, v) && s == Mul(Mul(px, z), v)
    requires m == Add(Dbl(Sq(Mul(px, z))), Sq(Mul(px, z)))
    ensures u == Mul(Add(py, py), t) && v == Mul(Mul(Add(py, py), Add(py, py)), Cube(z))
    ensures s == Mul(px, Mul(z, v)) && w == Mul(Mul(Add(py, py), t), v)
    ensures m == Mul(Mul(Tangent(0, px, py), Add(py, py)), Mul(z, z))
  {
    hide Mul, Add, Inv, Tangent, Cube;
    var d := Add(py, py);
    DoubleScale(t, py);
    MulSwap(d, t, d, t);
    MulAssoc(px, z, v);
    ThreeSquares(px, z);
    TangentTimes(0, px, py);
    AddZero(Add(Add(Mul(px, px), Mul(px, px)), Mul(px, px)));
  }

  lemma DoubleValid(d: Fe, z: Fe, t: Fe, v: Fe, w: Fe)
    requires Mul(t, t) == Cube(z) && v == Mul(Mul(d, d), Cube(z)) && w == Mul(Mul(d, t), v)
    ensures Mul(Mul(t, w), Mul(t, w)) == Cube(Mul(z, v))
  {
    hide Mul;
    DoubleZZZ(d, t, v);
    DoubleCube1(d, Cube(z), v);
    DoubleCube2(v, z);
  }

  // ------------------------------------------------------------------- addition

  lemma ProductValid(z1: Fe, t1: Fe, z2: Fe, t2: Fe)
    requires Mul(t1, t1) == Cube(z1) && Mul(t2, t2) == Cube(z2)
    ensures Mul(Mul(t1, t2), Mul(t1, t2)) == Cube(Mul(z1, z2))
  {
    hide Mul;
    MulSwap(t1, t2, t1, t2);
    MulSwap(z1, Mul(z1, z1), z2, Mul(z2, z2));
    MulSwap(z1, z1, z2, z2);
  }

  /** The addition formulas on finite points with different abscissae, where
      a = ZZ1*ZZ2 and c = ZZZ1*ZZZ2. */
  lemma AddFormula(p: Affine, q: Affine, a: Fe, c: Fe, pd: Fe, r: Fe, pp: Fe, ppp: Fe, qv: Fe, x3: Fe, y3: Fe)
    requires p.Point? && q.Point? && p.x != q.x && a != 0 && Mul(c, c) == Cube(a)
    requires pd == Mul(a, Sub(q.x, p.x)) && r == Mul(c, Sub(q.y, p.y))
    requires pp == Sq(pd) && ppp == Mul(pd, pp) && qv == Mul(Mul(a, p.x), pp)
    requires x3 == Sub(Sub(Sq(r), ppp), Dbl(qv)) && y3 == Sub(Mul(r, Sub(qv, x3)), Mul(Mul(c, p.y), ppp))
    ensures Rep(x3, y3, Mul(a, pp), Mul(c, ppp), AddPoints(CURVE, p, q))
  {
    hide Mul, Add, Sub, Inv, Chord, Rep;
    var l, d := Chord(p.x, p.y, q.x, q.y), Sub(q.x, p.x);
    var v := Mul(a, pp);
    ChordTimes(p.x, p.y, q.x, q.y);
    MulSwap(c, Mul(l, d), c, Mul(l, d));
    SumLead(a, d, l);
    MoveFactor(a, d, pp);
    CrossTerm(p.x, a, pp);
    MulAssoc(a, pp, p.x);
    MulComm(v, p.x);
    MulComm(Mul(a, pp), p.x);
    QvIs(a, p.x, pp);
    SumCollect(Mul(l, l), d, v, p.x);
    AddSub(p.x, q.x);
    var third := Sub(Sub(Mul(l, l), p.x), q.x);
    assert x3 == Mul(third, v);
    SumY(a, c, d, l, pp, p.x, third, p.y);
    assert y3 == Mul(Sub(Mul(l, Sub(p.x, third)), p.y), Mul(c, ppp));
    AddValid(a, c, pd, pp, ppp);
    SubIsZero(q.x, p.x);
    NoZeroDivisors(a, d);
    NoZeroDivisors(pd, pd);
    NoZeroDivisors(a, pp);
    FiniteRep(x3, y3, v, Mul(c, ppp), third, Sub(Mul(l, Sub(p.x, third)), p.y));
  }

  lemma QvIs(a: Fe, x: Fe, w: Fe)
    ensures Mul(Mul(a, x), w) == Mul(x, Mul(a, w))
  {
    hide *;
    MulComm(a, x);
    MulAssoc(x, a, w);
  }

  lemma AddValid(a: Fe, c: Fe, pd: Fe, pp: Fe, ppp: Fe)
    requires Mul(c, c) == Cube(a) && pp == Mul(pd, pd) && ppp == Mul(pd, pp)
    ensures Mul(Mul(c, ppp), Mul(c, ppp)) == Cube(Mul(a, pp))
  {
    hide Mul;
    MulSwap(c, ppp, c, ppp);
    SumCube(a, pd);
  }

  /** Cross-multiplied coordinates agree exactly when the affine ones do. */
  lemma CrossEqual(x1: Fe, x2: Fe, z1: Fe, z2: Fe)
    requires z1 != 0 && z2 != 0
    ensures Mul(Mul(x1, z1), z2) == Mul(Mul(x2, z2), z1) <==> x1 == x2
  {
    hide *;
    CrossTerm(x1, z1, z2);
    CrossTerm(x2, z2, z1);
    MulComm(z1, z2);
    MulComm(Mul(z1, z2), x1);
    MulComm(Mul(z1, z2), x2);
    NoZeroDivisors(z1, z2);
    if x1 != x2 && Mul(Mul(z1, z2), x1) == Mul(Mul(z1, z2), x2) {
      MulCancel(x1, x2, Mul(z1, z2));
    }
  }

  /** The test of the code tells equal coordinates apart from different ones. */
  lemma BranchTest(x1: Fe, z1: Fe, px: Fe, x2: Fe, z2: Fe, qx: Fe)
    requires z1 != 0 && z2 != 0 && x1 == Mul(px, z1) && x2 == Mul(qx, z2)
    ensures Mul(x1, z2) == Mul(x2, z1) <==> px == qx
  {
    hide *;
    CrossEqual(px, qx, z1, z2);
  }

  lemma CrossParts(x1: Fe, z1: Fe, px: Fe, x2: Fe, z2: Fe, qx: Fe)
    requires x1 == Mul(px, z1) && x2 == Mul(qx, z2)
    ensures Mul(x1, z2) == Mul(Mul(z1, z2), px)
    ensures Sub(Mul(x2, z1), Mul(x1, z2)) == Mul(Mul(z1, z2), Sub(qx, px))
  {
    hide *;
    CrossDifference(px, qx, z1, z2);
    CrossTerm(px, z1, z2);
  }

  lemma AddParts(x1: Fe, y1: Fe, zz1: Fe, zzz1: Fe, p: Affine, x2: Fe, y2: Fe, zz2: Fe, zzz2: Fe, q: Affine)
    requires Rep(x1, y1, zz1, zzz1, p) && Rep(x2, y2, zz2, zzz2, q) && p.Point? && q.Point?
    ensures Mul(zz1, zz2) != 0 && Mul(Mul(zzz1, zzz2), Mul(zzz1, zzz2)) == Cube(Mul(zz1, zz2))
    ensures Mul(x1, zz2) == Mul(Mul(zz1, zz2), p.x)
    ensures Sub(Mul(x2, zz1), Mul(x1, zz2)) == Mul(Mul(zz1, zz2), Sub(q.x, p.x))
    ensures Mul(y1, zzz2) == Mul(Mul(zzz1, zzz2), p.y)
    ensures Sub(Mul(y2, zzz1), Mul(y1, zzz2)) == Mul(Mul(zzz1, zzz2), Sub(q.y, p.y))
  {
    hide *;
    RepParts(x1, y1, zz1, zzz1, p);
    RepParts(x2, y2, zz2, zzz2, q);
    ProductValid(zz1, zzz1, zz2, zzz2);
    NoZeroDivisors(zz1, zz2);
    CrossParts(x1, zz1, p.x, x2, zz2, q.x);
    CrossParts(y1, zzz1, p.y, y2, zzz2, q.y);
  }

  lemma RepParts(x: Fe, y: Fe, zz: Fe, zzz: Fe, p: Affine)
    requires Rep(x, y, zz, zzz, p) && p.Point?
    ensures zz != 0 && Mul(zzz, zzz) == Cube(zz) && x == Mul(p.x, zz) && y == Mul(p.y, zzz)
  {
  }

  lemma RepFacts(x: Fe, y: Fe, zz: Fe, zzz: Fe, p: Affine)
    requires Rep(x, y, zz, zzz, p) && zz != 0
    ensures p.Point? && zzz != 0 && x == Mul(p.x, zz) && y == Mul(p.y, zzz)
  {
    hide Mul, Cube;
    CubeNonzero(zz, zzz);
  }

  /** A point doubled that is its own opposite gives the zero coordinates. */
  lemma DoubleCorrect(x: Fe, y: Fe, zz: Fe, zzz: Fe, p: Affine, u: Fe, v: Fe, w: Fe, s: Fe, m: Fe, x3: Fe, y3: Fe)
    requires Rep(x, y, zz, zzz, p) && p.Point?
    requires u == Dbl(y) && v == Sq(u) && w == Mul(u, v) && s == Mul(x, v) && m == Add(Dbl(Sq(x)), Sq(x))
    requires x3 == Sub(Sq(m), Dbl(s)) && y3 == Sub(Mul(m, Sub(s, x3)), Mul(w, y))
    ensures Rep(x3, y3, Mul(zz, v), Mul(zzz, w), DoublePoint(CURVE, p))
  {
    hide *;
    RepParts(x, y, zz, zzz, p);
    if p.y == 0 {
      SelfOpposite(y, zz, zzz, u, v, w, p);
      InfinityRep(x3, y3, Mul(zz, v), Mul(zzz, w), p);
    } else {
      DoubleFormula(p.x, p.y, zz, zzz, u, v, w, s, m, x3, y3);
      DoubleIs(p);
    }
  }

  lemma DoubleIs(p: Affine)
    requires p.Point?
    ensures DoublePoint(CURVE, p) == AddPoints(CURVE, Point(p.x, p.y), Point(p.x, p.y))
  {
  }

  lemma SelfOpposite(y: Fe, zz: Fe, zzz: Fe, u: Fe, v: Fe, w: Fe, p: Affine)
    requires p.Point? && p.y == 0 && y == Mul(p.y, zzz) && u == Dbl(y) && v == Sq(u) && w == Mul(u, v)
    ensures Mul(zz, v) == 0 && Mul(zzz, w) == 0
  {
    hide Mul;
    MulOne(zzz);
    MulOne(u);
    MulOne(v);
    MulOne(zz);
  }

  lemma InfinityRep(x: Fe, y: Fe, zz: Fe, zzz: Fe, p: Affine)
    requires zz == 0 && zzz == 0 && p.Point? && p.y == 0
    ensures Rep(x, y, zz, zzz, DoublePoint(CURVE, p))
  {
    hide Mul;
    MulOne(0);
  }

  lemma UnitRep(p: Affine)
    requires p.Point?
    ensures Rep(p.x, p.y, 1, 1, p) && Mul(p.x, 1) == p.x && Mul(p.y, 1) == p.y
  {
    hide Mul;
    MulOne(1);
    MulOne(p.x);
    MulOne(p.y);
  }

  lemma ZeroRep(x: Fe, y: Fe)
    ensures Rep(x, y, 0, 0, Infinity)
  {
    hide Mul;
    MulOne(0);
  }

  // -------------------------------------------------------------------- buckets

  class Bucket {
    var x: Fe
    var y: Fe
    var zz: Fe
    var zzz: Fe

    ghost predicate Valid()
      reads this
    {
      Mul(zzz, zzz) == Cube(zz) && OnCurve(CURVE, Value())
    }

    /** The affine point the bucket holds. */
    ghost function Value(): Affine
      reads this
    {
      ToAffine(x, y, zz, zzz)
    }

    constructor ()
      ensures Valid() && Value() == Infinity
    {
      x, y, zz, zzz := 1, 1, 0, 0;
      new;
      ZeroRep(1, 1);
      RepIsAffine(x, y, zz, zzz, Infinity);
    }

    predicate IsZero()
      reads this
    {
      zz == 0
    }

    method SetZero()
      modifies this
      ensures Valid() && Value() == Infinity
    {
      x, y, zz, zzz := 1, 1, 0, 0;
      ZeroRep(1, 1);
      RepIsAffine(x, y, zz, zzz, Infinity);
    }

    method DoubleInPlace()
      requires Valid()
      modifies this
      ensures Valid() && Value() == DoublePoint(CURVE, old(Value()))
    {
      hide Mul, Add, Sub, Inv, Cube, OnCurve, Rep;
      if IsZero() { return; }
      hide AddPoints, DoublePoint;
      ghost var before := Value();
      RepIsAffine(x, y, zz, zzz, before);
      var u := Dbl(y);
      var v := Sq(u);
      var w := Mul(u, v);
      var s := Mul(x, v);
      var xSq := Sq(x);
      var m := Add(Dbl(xSq), xSq);
      ghost var y1, zz1, zzz1 := y, zz, zzz;
      ghost var x1 := x;
      x := Sub(Sq(m), Dbl(s));
      y := Sub(Mul(m, Sub(s, x)), Mul(w, y));
      zz := Mul(zz, v);
      zzz := Mul(zzz, w);
      DoubleCorrect(x1, y1, zz1, zzz1, before, u, v, w, s, m, x, y);
      DoubleOnCurve(before);
      RepIsAffine(x, y, zz, zzz, DoublePoint(CURVE, before));
    }

    /** Full addition; the other bucket is a different object. */
    method AddAssignBucket(other: Bucket)
      requires Valid() && other.Valid() && other != this
      modifies this
      ensures Valid() && Value() == AddPoints(CURVE, old(Value()), other.Value())
    {
      hide Mul, Add, Sub, Inv, Cube, OnCurve, Rep, Through, Chord, Tangent;
      if other.IsZero() { return; }
      if IsZero() {
        x, y, zz, zzz := other.x, other.y, other.zz, other.zzz;
        return;
      }
      ghost var p, q := Value(), other.Value();
      RepIsAffine(x, y, zz, zzz, p);
      RepIsAffine(other.x, other.y, other.zz, other.zzz, q);
      RepFacts(x, y, zz, zzz, p);
      RepFacts(other.x, other.y, other.zz, other.zzz, q);
      BranchTest(x, zz, p.x, other.x, other.zz, q.x);
      BranchTest(y, zzz, p.y, other.y, other.zzz, q.y);
      var u1 := Mul(x, other.zz);
      var u2 := Mul(other.x, zz);
      var s1 := Mul(y, other.zzz);
      var s2 := Mul(other.y, zzz);
      if u1 == u2 {
        if s1 == s2 { DoubleInPlace(); } else { SetZero(); }
        return;
      }
      var pd := Sub(u2, u1);
      var r := Sub(s2, s1);
      var pp := Sq(pd);
      var ppp := Mul(pd, pp);
      var qv := Mul(u1, pp);
      Move(pd, r, pp, ppp, qv, s1, Mul(zz, other.zz), Mul(zzz, other.zzz), p, q, other.x, other.y, other.zz, other.zzz);
    }

    /** The assignments both additions end with. */
    method Move(pd: Fe, r: Fe, pp: Fe, ppp: Fe, qv: Fe, s1: Fe, newZz: Fe, newZzz: Fe,
                ghost p: Affine, ghost q: Affine, ghost x2: Fe, ghost y2: Fe, ghost zz2: Fe, ghost zzz2: Fe)
      requires Valid() && p == Value() && OnCurve(CURVE, q) && Rep(x2, y2, zz2, zzz2, q)
      requires p.Point? && q.Point? && p.x != q.x
      requires newZz == Mul(zz, zz2) && newZzz == Mul(zzz, zzz2) && s1 == Mul(y, zzz2)
      requires pd == Sub(Mul(x2, zz), Mul(x, zz2)) && r == Sub(Mul(y2, zzz), s1)
      requires pp == Sq(pd) && ppp == Mul(pd, pp) && qv == Mul(Mul(x, zz2), pp)
      modifies this
      ensures Valid() && Value() == AddPoints(CURVE, p, q)
    {
      hide *;
      ValidParts();
      ghost var x1, y1, zz1, zzz1 := x, y, zz, zzz;
      RepIsAffine(x1, y1, zz1, zzz1, p);
      x := Sub(Sub(Sq(r), ppp), Dbl(qv));
      y := Sub(Mul(r, Sub(qv, x)), Mul(s1, ppp));
      zz := Mul(newZz, pp);
      zzz := Mul(newZzz, ppp);
      AddParts(x1, y1, zz1, zzz1, p, x2, y2, zz2, zzz2, q);
      AddFormula(p, q, newZz, newZzz, pd, r, pp, ppp, qv, x, y);
      AddOnCurve(CURVE, p, q);
      FromRep(AddPoints(CURVE, p, q));
    }

    lemma ValidParts()
      requires Valid()
      ensures Mul(zzz, zzz) == Cube(zz) && OnCurve(CURVE, Value()) && Value() == ToAffine(x, y, zz, zzz)
    {
    }

    lemma FromRep(a: Affine)
      requires Rep(x, y, zz, zzz, a) && OnCurve(CURVE, a)
      ensures Valid() && Value() == a
    {
      RepIsAffine(x, y, zz, zzz, a);
    }

    /** Mixed addition of an affine point of the curve. */
    method AddAffine(p: Affine)
      requires Valid() && OnCurve(CURVE, p)
      modifies this
      ensures Valid() && Value() == AddPoints(CURVE, old(Value()), p)
    {
      hide Mul, Add, Sub, Inv, Cube, OnCurve, Rep, Through, Chord, Tangent;
      if p.Infinity? { return; }
      var px, py := p.x, p.y;
      UnitRep(p);
      if IsZero() {
        x, y, zz, zzz := px, py, 1, 1;
        FromRep(p);
        return;
      }
      ghost var b := Value();
      RepIsAffine(x, y, zz, zzz, b);
      RepFacts(x, y, zz, zzz, b);
      BranchTest(x, zz, b.x, px, 1, p.x);
      BranchTest(y, zzz, b.y, py, 1, p.y);
      var u2 := Mul(px, zz);
      var s2 := Mul(py, zzz);
      MulOne(x);
      MulOne(y);
      MulOne(zz);
      MulOne(zzz);
      if x == u2 {
        if y == s2 { DoubleInPlace(); } else { SetZero(); }
        return;
      }
      var pd := Sub(u2, x);
      var r := Sub(s2, y);
      var pp := Sq(pd);
      var ppp := Mul(pd, pp);
      var qv := Mul(x, pp);
      Move(pd, r, pp, ppp, qv, y, zz, zzz, b, p, px, py, 1, 1);
    }

    /** Conversion back: the point read off the coordinates is always on the curve. */
    method ToCurve() returns (r: Option<Affine>)
      requires Valid()
      ensures r == Some(Value())
    {
      hide Mul, Add, Inv, Cube, OnCurve;
      if IsZero() { return Some(Infinity); }
      var zzInv := Inv(zz);
      var zzzInv := Inv(zzz);
      r := FromXY(Mul(x, zzInv), Mul(y, zzzInv));
    }
  }

  /** The checked constructor of curve points. */
  function FromXY(x: Fe, y: Fe): Option<Affine> {
    if OnCurve(CURVE, Point(x, y)) then Some(Point(x, y)) else None
  }

  lemma DoubleOnCurve(p: Affine)
    requires OnCurve(CURVE, p)
    ensures OnCurve(CURVE, DoublePoint(CURVE, p))
  {
    hide OnCurve, AddPoints;
    AddOnCurve(CURVE, p, p);
  }

  // ------------------------------------------------------------ ring identities

  lemma CrossDifference(x1: Fe, x2: Fe, z1: Fe, z2: Fe)
    ensures Sub(Mul(Mul(x2, z2), z1), Mul(Mul(x1, z1), z2)) == Mul(Mul(z1, z2), Sub(x2, x1))
  {
    hide *;
    Hom();
    ROf(x1); ROf(x2); ROf(z1); ROf(z2);
    CrossDifferenceI(x1, x2, z1, z2);
  }

  lemma CrossDifferenceI(x1: int, x2: int, z1: int, z2: int)
    ensures ISub(IMul(IMul(x2, z2), z1), IMul(IMul(x1, z1), z2)) == IMul(IMul(z1, z2), ISub(x2, x1))
  {
  }

  lemma CrossTerm(x1: Fe, z1: Fe, z2: Fe)
    ensures Mul(Mul(x1, z1), z2) == Mul(Mul(z1, z2), x1)
  {
    hide *;
    Hom();
    ROf(x1); ROf(z1); ROf(z2);
    CrossTermI(x1, z1, z2);
  }

  lemma CrossTermI(x1: int, z1: int, z2: int)
    ensures IMul(IMul(x1, z1), z2) == IMul(IMul(z1, z2), x1)
  {
  }

  lemma SumLead(A: Fe, d: Fe, l: Fe)
    ensures Mul(Mul(A, Mul(A, A)), Mul(Mul(l, d), Mul(l, d)))
      == Mul(Mul(l, l), Mul(A, Mul(Mul(A, d), Mul(A, d))))
  {
    hide *;
    Hom();
    ROf(A); ROf(d); ROf(l);
    SumLeadI(A, d, l);
  }

  lemma SumLeadI(A: int, d: int, l: int)
    ensures IMul(IMul(A, IMul(A, A)), IMul(IMul(l, d), IMul(l, d)))
      == IMul(IMul(l, l), IMul(A, IMul(IMul(A, d), IMul(A, d))))
  {
  }

  lemma MoveFactor(A: Fe, d: Fe, w: Fe)
    ensures Mul(Mul(A, d), w) == Mul(d, Mul(A, w))
  {
    hide *;
    Hom();
    ROf(A); ROf(d); ROf(w);
    MoveFactorI(A, d, w);
  }

  lemma MoveFactorI(A: int, d: int, w: int)
    ensures IMul(IMul(A, d), w) == IMul(d, IMul(A, w))
  {
  }

  lemma SumCollect(L: Fe, d: Fe, v: Fe, x: Fe)
    ensures Sub(Sub(Mul(L, v), Mul(d, v)), Add(Mul(x, v), Mul(x, v))) == Mul(Sub(Sub(L, x), Add(x, d)), v)
  {
    hide *;
    Hom();
    ROf(L); ROf(d); ROf(v); ROf(x);
    SumCollectI(L, d, v, x);
  }

  lemma SumCollectI(L: int, d: int, v: int, x: int)
    ensures ISub(ISub(IMul(L, v), IMul(d, v)), IAdd(IMul(x, v), IMul(x, v)))
      == IMul(ISub(ISub(L, x), IAdd(x, d)), v)
  {
  }

  lemma SumY(A: Fe, T: Fe, d: Fe, l: Fe, w: Fe, x: Fe, x3: Fe, y: Fe)
    ensures Sub(Mul(Mul(T, Mul(l, d)), Sub(Mul(Mul(A, x), w), Mul(x3, Mul(A, w)))), Mul(Mul(T, y), Mul(Mul(A, d),
            w)))
      == Mul(Sub(Mul(l, Sub(x, x3)), y), Mul(T, Mul(Mul(A, d), w)))
  {
    hide *;
    Hom();
    ROf(A); ROf(T); ROf(d); ROf(l); ROf(w); ROf(x); ROf(x3); ROf(y);
    SumYI(A, T, d, l, w, x, x3, y);
  }

  lemma SumYI(A: int, T: int, d: int, l: int, w: int, x: int, x3: int, y: int)
    ensures ISub(IMul(IMul(T, IMul(l, d)), ISub(IMul(IMul(A, x), w), IMul(x3, IMul(A, w)))), IMul(IMul(T, y),
            IMul(IMul(A, d), w)))
      == IMul(ISub(IMul(l, ISub(x, x3)), y), IMul(T, IMul(IMul(A, d), w)))
  {
  }

  lemma SumCube(A: Fe, p: Fe)
    ensures Mul(Mul(A, Mul(A, A)), Mul(Mul(p, Mul(p, p)), Mul(p, Mul(p, p))))
      == Mul(Mul(A, Mul(p, p)), Mul(Mul(A, Mul(p, p)), Mul(A, Mul(p, p))))
  {
    hide *;
    Hom();
    ROf(A); ROf(p);
    SumCubeI(A, p);
  }

  lemma SumCubeI(A: int, p: int)
    ensures IMul(IMul(A, IMul(A, A)), IMul(IMul(p, IMul(p, p)), IMul(p, IMul(p, p))))
      == IMul(IMul(A, IMul(p, p)), IMul(IMul(A, IMul(p, p)), IMul(A, IMul(p, p))))
  {
  }

  lemma DoubleScale(t: Fe, y: Fe)
    ensures Add(Mul(y, t), Mul(y, t)) == Mul(Add(y, y), t)
  {
    hide *;
    Hom();
    ROf(t); ROf(y);
    DoubleScaleI(t, y);
  }

  lemma DoubleScaleI(t: int, y: int)
    ensures IAdd(IMul(y, t), IMul(y, t)) == IMul(IAdd(y, y), t)
  {
  }

  lemma ThreeSquares(x: Fe, z: Fe)
    ensures Add(Add(Mul(Mul(x, z), Mul(x, z)), Mul(Mul(x, z), Mul(x, z))), Mul(Mul(x, z), Mul(x, z)))
      == Mul(Add(Add(Mul(x, x), Mul(x, x)), Mul(x, x)), Mul(z, z))
  {
    hide *;
    Hom();
    ROf(x); ROf(z);
    ThreeSquaresI(x, z);
  }

  lemma ThreeSquaresI(x: int, z: int)
    ensures IAdd(IAdd(IMul(IMul(x, z), IMul(x, z)), IMul(IMul(x, z), IMul(x, z))), IMul(IMul(x, z), IMul(x, z)))
      == IMul(IAdd(IAdd(IMul(x, x), IMul(x, x)), IMul(x, x)), IMul(z, z))
  {
  }

  lemma DoubleLead(D: Fe, l: Fe, z: Fe)
    ensures Mul(Mul(Mul(l, D), Mul(z, z)), Mul(Mul(l, D), Mul(z, z)))
      == Mul(Mul(l, l), Mul(z, Mul(Mul(D, D), Mul(z, Mul(z, z)))))
  {
    hide *;
    Hom();
    ROf(D); ROf(l); ROf(z);
    DoubleLeadI(D, l, z);
  }

  lemma DoubleLeadI(D: int, l: int, z: int)
    ensures IMul(IMul(IMul(l, D), IMul(z, z)), IMul(IMul(l, D), IMul(z, z)))
      == IMul(IMul(l, l), IMul(z, IMul(IMul(D, D), IMul(z, IMul(z, z)))))
  {
  }

  lemma DoubleCollect(L: Fe, v: Fe, x: Fe)
    ensures Sub(Mul(L, v), Add(Mul(x, v), Mul(x, v))) == Mul(Sub(Sub(L, x), x), v)
  {
    hide *;
    Hom();
    ROf(L); ROf(v); ROf(x);
    DoubleCollectI(L, v, x);
  }

  lemma DoubleCollectI(L: int, v: int, x: int)
    ensures ISub(IMul(L, v), IAdd(IMul(x, v), IMul(x, v))) == IMul(ISub(ISub(L, x), x), v)
  {
  }

  lemma DoubleY1(D: Fe, l: Fe, v: Fe, x: Fe, x3: Fe, z: Fe)
    ensures Mul(Mul(Mul(l, D), Mul(z, z)), Sub(Mul(x, Mul(z, v)), Mul(x3, Mul(z, v))))
      == Mul(Mul(l, Sub(x, x3)), Mul(Mul(D, v), Mul(z, Mul(z, z))))
  {
    hide *;
    Hom();
    ROf(D); ROf(l); ROf(v); ROf(x); ROf(x3); ROf(z);
    DoubleY1I(D, l, v, x, x3, z);
  }

  lemma DoubleY1I(D: int, l: int, v: int, x: int, x3: int, z: int)
    ensures IMul(IMul(IMul(l, D), IMul(z, z)), ISub(IMul(x, IMul(z, v)), IMul(x3, IMul(z, v))))
      == IMul(IMul(l, ISub(x, x3)), IMul(IMul(D, v), IMul(z, IMul(z, z))))
  {
  }

  lemma DoubleY2(D: Fe, t: Fe, v: Fe, y: Fe)
    ensures Mul(Mul(Mul(D, t), v), Mul(y, t)) == Mul(y, Mul(Mul(D, v), Mul(t, t)))
  {
    hide *;
    Hom();
    ROf(D); ROf(t); ROf(v); ROf(y);
    DoubleY2I(D, t, v, y);
  }

  lemma DoubleY2I(D: int, t: int, v: int, y: int)
    ensures IMul(IMul(IMul(D, t), v), IMul(y, t)) == IMul(y, IMul(IMul(D, v), IMul(t, t)))
  {
  }

  lemma DoubleZZZ(D: Fe, t: Fe, v: Fe)
    ensures Mul(t, Mul(Mul(D, t), v)) == Mul(Mul(D, v), Mul(t, t))
  {
    hide *;
    Hom();
    ROf(D); ROf(t); ROf(v);
    DoubleZZZI(D, t, v);
  }

  lemma DoubleZZZI(D: int, t: int, v: int)
    ensures IMul(t, IMul(IMul(D, t), v)) == IMul(IMul(D, v), IMul(t, t))
  {
  }

  lemma DoubleCube1(D: Fe, c: Fe, v: Fe)
    ensures Mul(Mul(Mul(D, v), c), Mul(Mul(D, v), c)) == Mul(c, Mul(Mul(v, v), Mul(Mul(D, D), c)))
  {
    hide *;
    Hom();
    ROf(D); ROf(c); ROf(v);
    DoubleCube1I(D, c, v);
  }

  lemma DoubleCube1I(D: int, c: int, v: int)
    ensures IMul(IMul(IMul(D, v), c), IMul(IMul(D, v), c)) == IMul(c, IMul(IMul(v, v), IMul(IMul(D, D), c)))
  {
  }

  lemma DoubleCube2(v: Fe, z: Fe)
    ensures Mul(Mul(z, v), Mul(Mul(z, v), Mul(z, v))) == Mul(Mul(z, Mul(z, z)), Mul(Mul(v, v), v))
  {
    hide *;
    Hom();
    ROf(v); ROf(z);
    DoubleCube2I(v, z);
  }

  lemma DoubleCube2I(v: int, z: int)
    ensures IMul(IMul(z, v), IMul(IMul(z, v), IMul(z, v))) == IMul(IMul(z, IMul(z, z)), IMul(IMul(v, v), v))
  {
  }
}
