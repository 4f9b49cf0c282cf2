/** Short Weierstrass curves y^2 = x^3 + a*x + b over the base field: the affine
    chord-and-tangent law, which the coordinate formulas and the circuit gadgets
    are measured against, and the fact that it stays on the curve. */
module Curve {
  import opened PrimeField
  import opened FieldLaws

  datatype Affine = Infinity | Point(x: Fe, y: Fe)

  datatype Params = Params(a: Fe, b: Fe)

  predicate OnCurve(k: Params, p: Affine) {
    p.Point? ==> Mul(p.y, p.y) == Add(Add(Mul(p.x, Mul(p.x, p.x)), Mul(k.a, p.x)), k.b)
  }

  /** 3*x^2 + a. */
  function TangentRise(a: Fe, x: Fe): Fe {
    Add(Add(Add(Mul(x, x), Mul(x, x)), Mul(x, x)), a)
  }

  function Tangent(a: Fe, x: Fe, y: Fe): Fe {
    Mul(TangentRise(a, x), Inv(Add(y, y)))
  }

  function Chord(x1: Fe, y1: Fe, x2: Fe, y2: Fe): Fe {
    Mul(Sub(y2, y1), Inv(Sub(x2, x1)))
  }

  /** Third point of the line of slope l through (x1, y1) and abscissa x2, reflected. */
  function Through(l: Fe, x1: Fe, y1: Fe, x2: Fe): Affine {
    var x3 := Sub(Sub(Mul(l, l), x1), x2);
    Point(x3, Sub(Mul(l, Sub(x1, x3)), y1))
  }

  /** The chord-and-tangent law. */
  function AddPoints(k: Params, p: Affine, q: Affine): Affine {
    if p.Infinity? then q
    else if q.Infinity? then p
    else if p.x != q.x then Through(Chord(p.x, p.y, q.x, q.y), p.x, p.y, q.x)
    else if p.y == q.y && p.y != 0 then Through(Tangent(k.a, p.x, p.y), p.x, p.y, p.x)
    else Infinity
  }

  function DoublePoint(k: Params, p: Affine): Affine {
    AddPoints(k, p, p)
  }

  function NegPoint(p: Affine): Affine {
    if p.Infinity? then p else Point(p.x, Neg(p.y))
  }

  // ------------------------------------------------------------------ slopes

  lemma TwoNonzero(y: Fe)
    ensures Add(y, y) == 0 <==> y == 0
  {
    OddModulus();
  }

  lemma OddModulus()
    ensures P % 2 == 1
  {
    assert !Divides(2, P);
  }

  lemma SlopeTimes(e: Fe, d: Fe)
    requires d != 0
    ensures Mul(Mul(e, Inv(d)), d) == e
  {
    hide *;
    MulInv(d);
    MulAssoc(e, Inv(d), d);
    MulOne(e);
  }

  lemma ChordTimes(x1: Fe, y1: Fe, x2: Fe, y2: Fe)
    requires x1 != x2
    ensures Mul(Chord(x1, y1, x2, y2), Sub(x2, x1)) == Sub(y2, y1)
  {
    hide Mul, Inv, Sub;
    SubIsZero(x2, x1);
    SlopeTimes(Sub(y2, y1), Sub(x2, x1));
  }

  lemma TangentTimes(a: Fe, x: Fe, y: Fe)
    requires y != 0
    ensures Mul(Tangent(a, x, y), Add(y, y)) == TangentRise(a, x)
  {
    hide Mul, Inv, Add, TangentRise;
    TwoNonzero(y);
    SlopeTimes(TangentRise(a, x), Add(y, y));
  }

  // ------------------------------------------------------------- on the curve

  /** x^3 + a*x + b less the square of the line: zero where the line meets the curve. */
  function Defect(k: Params, l: Fe, x1: Fe, y1: Fe, x: Fe): Fe {
    Sub(Add(Add(Mul(x, Mul(x, x)), Mul(k.a, x)), k.b),
        Mul(Add(Mul(l, Sub(x, x1)), y1), Add(Mul(l, Sub(x, x1)), y1)))
  }

  function Alpha(k: Params, l: Fe, x1: Fe, y1: Fe, x2: Fe): Fe {
    Sub(Sub(k.a, Add(Mul(x1, x2), Mul(Sub(Sub(Mul(l, l), x1), x2), Add(x1, x2)))),
        Add(Mul(l, Sub(y1, Mul(l, x1))), Mul(l, Sub(y1, Mul(l, x1)))))
  }

  function Beta(k: Params, l: Fe, x1: Fe, y1: Fe, x2: Fe): Fe {
    Sub(Add(k.b, Mul(Mul(x1, x2), Sub(Sub(Mul(l, l), x1), x2))), Mul(Sub(y1, Mul(l, x1)), Sub(y1, Mul(l, x1))))
  }

  /** Where one factor of the cubic vanishes, the defect is linear. */
  lemma DefectAtRoot(k: Params, l: Fe, x1: Fe, y1: Fe, x2: Fe, x: Fe)
    requires x == x1 || x == x2 || x == Sub(Sub(Mul(l, l), x1), x2)
    ensures Defect(k, l, x1, y1, x) == Add(Mul(Alpha(k, l, x1, y1, x2), x), Beta(k, l, x1, y1, x2))
  {
    hide Mul, Add, Sub;
    var x3 := Sub(Sub(Mul(l, l), x1), x2);
    LineThroughCurve(k.a, k.b, l, x, x1, x2, y1);
    SubIsZero(x, x1);
    SubIsZero(x, x2);
    SubIsZero(x, x3);
    MulOne(Sub(x, x2));
    MulOne(Sub(x, x1));
    MulOne(Sub(x, x3));
    MulOne(Mul(Sub(x, x1), Sub(x, x2)));
    AddZero(Mul(Alpha(k, l, x1, y1, x2), x));
  }

  lemma LinearVanishes(alpha: Fe, beta: Fe, x1: Fe, x2: Fe)
    requires Add(Mul(alpha, x1), beta) == 0 && Add(Mul(alpha, x2), beta) == 0 && x1 != x2
    ensures alpha == 0 && beta == 0
  {
    hide *;
    AddCancel(Mul(alpha, x1), Mul(alpha, x2), beta);
    MulSub(alpha, x1, x2);
    SubIsZero(Mul(alpha, x1), Mul(alpha, x2));
    SubIsZero(x1, x2);
    NoZeroDivisors(alpha, Sub(x1, x2));
    MulOne(x1);
    AddZero(beta);
  }

  /** A line whose defect is identically linear zero meets the curve in its third point. */
  lemma ThirdOnCurve(k: Params, l: Fe, x1: Fe, y1: Fe, x2: Fe)
    requires Alpha(k, l, x1, y1, x2) == 0 && Beta(k, l, x1, y1, x2) == 0
    ensures OnCurve(k, Through(l, x1, y1, x2))
  {
    hide Mul, Add, Sub, Alpha, Beta;
    var x3 := Sub(Sub(Mul(l, l), x1), x2);
    DefectAtRoot(k, l, x1, y1, x2, x3);
    MulOne(x3);
    AddZero(0);
    Reflect(l, x1, x3, y1);
    SubIsZero(Add(Add(Mul(x3, Mul(x3, x3)), Mul(k.a, x3)), k.b),
              Mul(Add(Mul(l, Sub(x3, x1)), y1), Add(Mul(l, Sub(x3, x1)), y1)));
  }

  lemma FirstPointDefect(k: Params, l: Fe, x1: Fe, y1: Fe)
    requires OnCurve(k, Point(x1, y1))
    ensures Defect(k, l, x1, y1, x1) == 0
  {
    hide Mul, Add, Sub;
    LineAtFirst(l, x1, y1);
    SubIsZero(Mul(y1, y1), Mul(y1, y1));
  }

  lemma SecondPointDefect(k: Params, l: Fe, x1: Fe, y1: Fe, x2: Fe, y2: Fe)
    requires OnCurve(k, Point(x2, y2)) && Mul(l, Sub(x2, x1)) == Sub(y2, y1)
    ensures Defect(k, l, x1, y1, x2) == 0
  {
    hide Mul, Add, Sub;
    LineAtSecond(l, x1, x2, y1, y2);
    SubIsZero(Sub(y2, y1), Sub(y2, y1));
    AddZero(y2);
    SubIsZero(Mul(y2, y2), Mul(y2, y2));
  }

  lemma ChordOnCurve(k: Params, x1: Fe, y1: Fe, x2: Fe, y2: Fe)
    requires OnCurve(k, Point(x1, y1)) && OnCurve(k, Point(x2, y2)) && x1 != x2
    ensures OnCurve(k, Through(Chord(x1, y1, x2, y2), x1, y1, x2))
  {
    hide *;
    var l := Chord(x1, y1, x2, y2);
    ChordTimes(x1, y1, x2, y2);
    FirstPointDefect(k, l, x1, y1);
    SecondPointDefect(k, l, x1, y1, x2, y2);
    DefectAtRoot(k, l, x1, y1, x2, x1);
    DefectAtRoot(k, l, x1, y1, x2, x2);
    LinearVanishes(Alpha(k, l, x1, y1, x2), Beta(k, l, x1, y1, x2), x1, x2);
    ThirdOnCurve(k, l, x1, y1, x2);
  }

  /** The tangent's defect has a double root. */
  lemma TangentAlpha(k: Params, l: Fe, x1: Fe, y1: Fe)
    requires Mul(l, Add(y1, y1)) == TangentRise(k.a, x1)
    ensures Alpha(k, l, x1, y1, x1) == 0
  {
    hide Mul, Add, Sub;
    TangentSlope(k.a, l, x1, y1);
    SubIsZero(TangentRise(k.a, x1), Mul(l, Add(y1, y1)));
  }

  lemma TangentOnCurve(k: Params, x1: Fe, y1: Fe)
    requires OnCurve(k, Point(x1, y1)) && y1 != 0
    ensures OnCurve(k, Through(Tangent(k.a, x1, y1), x1, y1, x1))
  {
    hide *;
    var l := Tangent(k.a, x1, y1);
    TangentTimes(k.a, x1, y1);
    TangentAlpha(k, l, x1, y1);
    FirstPointDefect(k, l, x1, y1);
    DefectAtRoot(k, l, x1, y1, x1, x1);
    MulOne(x1);
    AddZero(Beta(k, l, x1, y1, x1));
    ThirdOnCurve(k, l, x1, y1, x1);
  }

  /** The law never leaves the curve. */
  lemma AddOnCurve(k: Params, p: Affine, q: Affine)
    requires OnCurve(k, p) && OnCurve(k, q)
    ensures OnCurve(k, AddPoints(k, p, q))
  {
    hide OnCurve, Through, Chord, Tangent;
    InfinityOnCurve(k);
    if p.Point? && q.Point? {
      if p.x != q.x {
        ChordOnCurve(k, p.x, p.y, q.x, q.y);
      } else if p.y == q.y && p.y != 0 {
        TangentOnCurve(k, p.x, p.y);
      }
    }
  }

  lemma InfinityOnCurve(k: Params)
    ensures OnCurve(k, Infinity)
  {
  }

  /** Two points of the curve with one abscissa are equal or opposite. */
  lemma SameAbscissa(k: Params, p: Affine, q: Affine)
    requires OnCurve(k, p) && OnCurve(k, q) && p.Point? && q.Point? && p.x == q.x
    ensures p == q || p == NegPoint(q)
  {
    hide Mul;
    DifferenceOfSquares(p.y, q.y);
    SubIsZero(Mul(q.y, q.y), Mul(p.y, p.y));
    NoZeroDivisors(Sub(q.y, p.y), Add(q.y, p.y));
  }

  // ------------------------------------------------------------ ring identities

  lemma LineThroughCurve(a: Fe, b: Fe, l: Fe, x: Fe, x1: Fe, x2: Fe, y1: Fe)
    ensures Sub(Add(Add(Mul(x, Mul(x, x)), Mul(a, x)), b), Mul(Add(Mul(l, Sub(x, x1)), y1), Add(Mul(l, Sub(x,
            x1)), y1)))
      == Add(Add(Mul(Mul(Sub(x, x1), Sub(x, x2)), Sub(x, Sub(Sub(Mul(l, l), x1), x2))), Mul(Sub(Sub(a,
            Add(Mul(x1, x2), Mul(Sub(Sub(Mul(l, l), x1), x2), Add(x1, x2)))), Add(Mul(l, Sub(y1, Mul(l, x1))),
            Mul(l, Sub(y1, Mul(l, x1))))), x)), Sub(Add(b, Mul(Mul(x1, x2), Sub(Sub(Mul(l, l), x1), x2))),
            Mul(Sub(y1, Mul(l, x1)), Sub(y1, Mul(l, x1)))))
  {
    hide *;
    Hom();
    ROf(a); ROf(b); ROf(l); ROf(x); ROf(x1); ROf(x2); ROf(y1);
    LineThroughCurveI(a, b, l, x, x1, x2, y1);
  }

  lemma LineThroughCurveI(a: int, b: int, l: int, x: int, x1: int, x2: int, y1: int)
    ensures ISub(IAdd(IAdd(IMul(x, IMul(x, x)), IMul(a, x)), b), IMul(IAdd(IMul(l, ISub(x, x1)), y1),
            IAdd(IMul(l, ISub(x, x1)), y1)))
      == IAdd(IAdd(IMul(IMul(ISub(x, x1), ISub(x, x2)), ISub(x, ISub(ISub(IMul(l, l), x1), x2))),
            IMul(ISub(ISub(a, IAdd(IMul(x1, x2), IMul(ISub(ISub(IMul(l, l), x1), x2), IAdd(x1, x2)))),
            IAdd(IMul(l, ISub(y1, IMul(l, x1))), IMul(l, ISub(y1, IMul(l, x1))))), x)), ISub(IAdd(b,
            IMul(IMul(x1, x2), ISub(ISub(IMul(l, l), x1), x2))), IMul(ISub(y1, IMul(l, x1)), ISub(y1, IMul(l,
            x1)))))
  {
    var m, x3 := y1 - l * x1, (l * l - x1) - x2;
    LineI(l, x, x1, y1);
    SquareLineI(l, x, m);
    CubicI(x, x1, x2, x3);
    CoefficientI(a, x1 * x2 + x3 * (x1 + x2), l * m, x);
    assert x1 + x2 + x3 == l * l;
  }
  lemma LineI(l: int, x: int, x1: int, y1: int)
    ensures l * (x - x1) + y1 == l * x + (y1 - l * x1)
  {
  }
  lemma SquareLineI(l: int, x: int, m: int)
    ensures (l * x + m) * (l * x + m) == (l * l) * (x * x) + (l * m + l * m) * x + m * m
  {
  }
  lemma CubicI(x: int, x1: int, x2: int, x3: int)
    ensures ((x - x1) * (x - x2)) * (x - x3)
         == x * (x * x) - (x1 + x2 + x3) * (x * x) + (x1 * x2 + x3 * (x1 + x2)) * x - (x1 * x2) * x3
  {
  }
  lemma CoefficientI(a: int, e: int, f: int, x: int)
    ensures ((a - e) - (f + f)) * x == a * x - e * x - (f + f) * x
  {
  }

  lemma TangentSlope(a: Fe, l: Fe, x1: Fe, y1: Fe)
    ensures Sub(Sub(a, Add(Mul(x1, x1), Mul(Sub(Sub(Mul(l, l), x1), x1), Add(x1, x1)))), Add(Mul(l, Sub(y1,
            Mul(l, x1))), Mul(l, Sub(y1, Mul(l, x1)))))
      == Sub(Add(Add(Add(Mul(x1, x1), Mul(x1, x1)), Mul(x1, x1)), a), Mul(l, Add(y1, y1)))
  {
    hide *;
    Hom();
    ROf(a); ROf(l); ROf(x1); ROf(y1);
    TangentSlopeI(a, l, x1, y1);
  }

  lemma TangentSlopeI(a: int, l: int, x1: int, y1: int)
    ensures ISub(ISub(a, IAdd(IMul(x1, x1), IMul(ISub(ISub(IMul(l, l), x1), x1), IAdd(x1, x1)))), IAdd(IMul(l,
            ISub(y1, IMul(l, x1))), IMul(l, ISub(y1, IMul(l, x1)))))
      == ISub(IAdd(IAdd(IAdd(IMul(x1, x1), IMul(x1, x1)), IMul(x1, x1)), a), IMul(l, IAdd(y1, y1)))
  {
  }

  lemma LineAtFirst(l: Fe, x1: Fe, y1: Fe)
    ensures Add(Mul(l, Sub(x1, x1)), y1) == y1
  {
    hide *;
    Hom();
    ROf(l); ROf(x1); ROf(y1);
    LineAtFirstI(l, x1, y1);
  }

  lemma LineAtFirstI(l: int, x1: int, y1: int)
    ensures IAdd(IMul(l, ISub(x1, x1)), y1) == y1
  {
  }

  lemma LineAtSecond(l: Fe, x1: Fe, x2: Fe, y1: Fe, y2: Fe)
    ensures Add(Mul(l, Sub(x2, x1)), y1) == Add(y2, Sub(Mul(l, Sub(x2, x1)), Sub(y2, y1)))
  {
    hide *;
    Hom();
    ROf(l); ROf(x1); ROf(x2); ROf(y1); ROf(y2);
    LineAtSecondI(l, x1, x2, y1, y2);
  }

  lemma LineAtSecondI(l: int, x1: int, x2: int, y1: int, y2: int)
    ensures IAdd(IMul(l, ISub(x2, x1)), y1) == IAdd(y2, ISub(IMul(l, ISub(x2, x1)), ISub(y2, y1)))
  {
  }

  lemma Reflect(l: Fe, x1: Fe, x3: Fe, y1: Fe)
    ensures Mul(Add(Mul(l, Sub(x3, x1)), y1), Add(Mul(l, Sub(x3, x1)), y1))
      == Mul(Sub(Mul(l, Sub(x1, x3)), y1), Sub(Mul(l, Sub(x1, x3)), y1))
  {
    hide *;
    Hom();
    ROf(l); ROf(x1); ROf(x3); ROf(y1);
    ReflectI(l, x1, x3, y1);
  }

  lemma ReflectI(l: int, x1: int, x3: int, y1: int)
    ensures IMul(IAdd(IMul(l, ISub(x3, x1)), y1), IAdd(IMul(l, ISub(x3, x1)), y1))
      == IMul(ISub(IMul(l, ISub(x1, x3)), y1), ISub(IMul(l, ISub(x1, x3)), y1))
  {
  }

  lemma DifferenceOfSquares(y1: Fe, y2: Fe)
    ensures Mul(Sub(y2, y1), Add(y2, y1)) == Sub(Mul(y2, y2), Mul(y1, y1))
  {
    hide *;
    Hom();
    ROf(y1); ROf(y2);
    DifferenceOfSquaresI(y1, y2);
  }

  lemma DifferenceOfSquaresI(y1: int, y2: int)
    ensures IMul(ISub(y2, y1), IAdd(y2, y1)) == ISub(IMul(y2, y2), IMul(y1, y1))
  {
  }
}
