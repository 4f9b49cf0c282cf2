/** Curve arithmetic inside a circuit: the complete addition, doubling, the incomplete
    operations, and scalar multiplication. */
module EccGadget {
  import opened PrimeField
  import opened FieldLaws
  import opened Curve
  import opened Circuit

  /** The curve the gadgets are built for. */
  const K: Params

  datatype PointWires = PointWires(x: Wire, y: Wire, inf: Wire)

  datatype PointValue = PointValue(x: Fe, y: Fe, inf: Fe)

  function PV(w: Assignment, p: PointWires): PointValue {
    PointValue(V(w, p.x), V(w, p.y), V(w, p.inf))
  }

  predicate PIn(p: PointWires, n: nat) {
    In(p.x, n) && In(p.y, n) && In(p.inf, n)
  }

  /** The point a value stands for; coordinates of infinity do not matter. */
  function PointOf(v: PointValue): Affine {
    if v.inf == 1 then Infinity else Point(v.x, v.y)
  }

  // --------------------------------------------------------------- pure lemmas

  /** The two constraints on the third point of a line. */
  lemma ThirdForced(l: Fe, x1: Fe, y1: Fe, x2: Fe, x: Fe, y: Fe)
    ensures Mul(l, l) == Add(Add(x, x1), x2) && Mul(l, Sub(x1, x)) == Add(y, y1)
       <==> Point(x, y) == Through(l, x1, y1, x2)
  {
    hide Mul;
    SumForced(Mul(l, l), x, x1, x2);
    OneForced(Mul(l, Sub(x1, x)), y, y1);
  }

  lemma SumForced(s: Fe, x: Fe, a: Fe, b: Fe)
    ensures s == Add(Add(x, a), b) <==> x == Sub(Sub(s, a), b)
  {
  }

  lemma OneForced(s: Fe, y: Fe, a: Fe)
    ensures s == Add(y, a) <==> y == Sub(s, a)
  {
  }

  lemma ChordForced(l: Fe, x1: Fe, y1: Fe, x2: Fe, y2: Fe)
    requires x1 != x2
    ensures Mul(l, Sub(x2, x1)) == Sub(y2, y1) <==> l == Chord(x1, y1, x2, y2)
  {
    hide Mul, Sub, Inv, Chord;
    ChordTimes(x1, y1, x2, y2);
    SubIsZero(x2, x1);
    if Mul(l, Sub(x2, x1)) == Sub(y2, y1) {
      MulCancel(l, Chord(x1, y1, x2, y2), Sub(x2, x1));
    }
  }

  lemma TangentForced(l: Fe, x: Fe, y: Fe)
    requires y != 0
    ensures Mul(l, Add(y, y)) == TangentRise(K.a, x) <==> l == Tangent(K.a, x, y)
  {
    hide Mul, Add, Inv, Tangent, TangentRise;
    TangentTimes(K.a, x, y);
    TwoNonzero(y);
    if Mul(l, Add(y, y)) == TangentRise(K.a, x) {
      MulCancel(l, Tangent(K.a, x, y), Add(y, y));
    }
  }

  lemma ThreeTimes(x: Fe, s: Fe)
    ensures Mul(Mul(3, x), x) == Add(Add(Mul(x, x), Mul(x, x)), Mul(x, x))
    ensures Mul(3, s) == Add(Add(s, s), s) && Mul(2, s) == Add(s, s) && Mul(Add(1, 1), s) == Add(s, s)
  {
    hide *;
    MulAssoc(3, x, x);
    SmallFactors(s);
    SmallFactors(Mul(x, x));
  }

  lemma SmallFactors(s: Fe)
    ensures Mul(3, s) == Add(Add(s, s), s) && Mul(2, s) == Add(s, s) && Mul(Add(1, 1), s) == Add(s, s)
  {
    hide Mul;
    AddMul(1, 1, s);
    AddMul(2, 1, s);
    MulOne(s);
  }

  // ------------------------------------------------------------------ negation

  method Negate(cs: CS, p: PointWires) returns (r: PointWires)
    requires cs.Valid() && PIn(p, |cs.aux|)
    modifies cs
    ensures cs.Grown(old(cs.aux), old(cs.constraints)) && PIn(r, |cs.aux|)
    ensures forall w {:trigger Sat(w, cs.constraints)} :: Sat(w, cs.constraints) ==>
              PV(w, r) == PV(w, p).(y := Neg(V(w, p.y)))
    ensures old(cs.Honest()) ==> cs.Honest()
  {
    hide Mul, Sub, Sat;
    var y := cs.Alloc(Neg(V(cs.aux, p.y)));
    cs.Enforce(L1(Pos(p.y)), L1(Pos(One)), L1(Minus(y)));
    forall w
      ensures Holds(w, Constraint(L1(Pos(p.y)), L1(Pos(One)), L1(Minus(y)))) <==> V(w, y) == Neg(V(w, p.y))
    {
      MulOne(V(w, p.y));
      NegForced(V(w, p.y), V(w, y));
    }
    r := p.(y := y);
  }

  lemma NegForced(a: Fe, y: Fe)
    ensures a == Neg(y) <==> y == Neg(a)
  {
  }

  // -------------------------------------------------------------- the third point

  /** Allocates x and y and ties them to the line of slope lambda. */
  method ThirdPoint(cs: CS, l: Wire, x1: Wire, y1: Wire, x2: Wire) returns (x: Wire, y: Wire)
    requires cs.Valid() && In(l, |cs.aux|) && In(x1, |cs.aux|) && In(y1, |cs.aux|) && In(x2, |cs.aux|)
    modifies cs
    ensures cs.Grown(old(cs.aux), old(cs.constraints)) && In(x, |cs.aux|) && In(y, |cs.aux|)
    ensures forall w {:trigger Sat(w, cs.constraints)} :: Sat(w, cs.constraints) ==>
              Point(V(w, x), V(w, y)) == Through(V(w, l), V(w, x1), V(w, y1), V(w, x2))
    ensures Point(V(cs.aux, x), V(cs.aux, y)) == Through(V(cs.aux, l), V(cs.aux, x1), V(cs.aux, y1), V(cs.aux, x2))
    ensures old(cs.Honest()) ==> cs.Honest()
  {
    hide Mul, Add, Sub, Sat, Through;
    ghost var (vl, vx1, vy1, vx2) := (V(cs.aux, l), V(cs.aux, x1), V(cs.aux, y1), V(cs.aux, x2));
    x := cs.Alloc(Sub(Sub(Mul(V(cs.aux, l), V(cs.aux, l)), V(cs.aux, x1)), V(cs.aux, x2)));
    ghost var vx := V(cs.aux, x);
    cs.Enforce(L1(Pos(l)), L1(Pos(l)), L3(Pos(x), Pos(x1), Pos(x2)));
    SumForced(Mul(vl, vl), vx, vx1, vx2);
    y := cs.Alloc(Sub(Mul(V(cs.aux, l), Sub(V(cs.aux, x1), V(cs.aux, x))), V(cs.aux, y1)));
    ghost var vy := V(cs.aux, y);
    cs.Enforce(L1(Pos(l)), L2(Pos(x1), Minus(x)), L2(Pos(y), Pos(y1)));
    OneForced(Mul(vl, Sub(vx1, vx)), vy, vy1);
    ThirdForced(vl, vx1, vy1, vx2, vx, vy);
    forall w | Sat(w, cs.constraints)
      ensures Point(V(w, x), V(w, y)) == Through(V(w, l), V(w, x1), V(w, y1), V(w, x2))
    {
      ThirdForced(V(w, l), V(w, x1), V(w, y1), V(w, x2), V(w, x), V(w, y));
    }
  }

  // ------------------------------------------------------------------- doubling

  /** What a satisfied doubling says: the tangent law, zero coordinates at infinity, and
      no satisfying assignment for a point that is its own opposite and not singular. */
  predicate DoubleRel(v: PointValue, o: PointValue) {
    && o.inf == v.inf
    && (v.inf == 1 ==> o.x == 0 && o.y == 0)
    && (v.inf == 0 && v.y != 0 ==> Point(o.x, o.y) == Through(Tangent(K.a, v.x, v.y), v.x, v.y, v.x))
    && (v.inf == 0 && v.y == 0 ==> TangentRise(K.a, v.x) == 0)
  }

  /** The denominator of the tangent's slope: 2*y, or 1 at infinity. */
  method Denominator(cs: CS, p: PointWires) returns (tmp: Wire)
    requires cs.Valid() && PIn(p, |cs.aux|)
    modifies cs
    ensures cs.Grown(old(cs.aux), old(cs.constraints)) && In(tmp, |cs.aux|)
    ensures forall w {:trigger Sat(w, cs.constraints)} :: Sat(w, cs.constraints) && IsBit(V(w, p.inf)) ==>
              V(w, tmp) == if V(w, p.inf) == 1 then 1 else Add(V(w, p.y), V(w, p.y))
    ensures V(cs.aux, tmp) == if V(cs.aux, p.inf) == 1 then 1 else Add(V(cs.aux, p.y), V(cs.aux, p.y))
    ensures old(cs.Honest()) && IsBit(V(cs.aux, p.inf)) ==> cs.Honest()
  {
    hide Mul, Sub, Sat, Add;
    ghost var v := PV(cs.aux, p);
    var tmpActual := cs.Alloc(Add(V(cs.aux, p.y), V(cs.aux, p.y)));
    cs.Enforce(L2(Pos(One), Pos(One)), L1(Pos(p.y)), L1(Pos(tmpActual)));
    ThreeTimes(v.x, v.y);
    tmp := SelectOneOrNum2(cs, tmpActual, p.inf);
    forall w | Sat(w, cs.constraints) && IsBit(V(w, p.inf))
      ensures V(w, tmp) == if V(w, p.inf) == 1 then 1 else Add(V(w, p.y), V(w, p.y))
    {
      ThreeTimes(V(w, p.x), V(w, p.y));
    }
  }

  /** Allocates the slope of the tangent and ties it to the point. */
  method TangentSlopeWire(cs: CS, p: PointWires) returns (lambda: Wire)
    requires cs.Valid() && PIn(p, |cs.aux|)
    modifies cs
    ensures cs.Grown(old(cs.aux), old(cs.constraints)) && In(lambda, |cs.aux|)
    ensures forall w {:trigger Sat(w, cs.constraints)} :: Sat(w, cs.constraints) && IsBit(V(w, p.inf)) ==>
              Mul(if V(w, p.inf) == 1 then 1 else Add(V(w, p.y), V(w, p.y)), V(w, lambda)) == TangentRise(K.a, V(w, p.x))
    ensures (old(cs.Honest()) && IsBit(V(cs.aux, p.inf)) && (V(cs.aux, p.inf) == 1 || V(cs.aux, p.y) != 0)) ==> cs.Honest()
  {
    hide Mul, Add, Sub, Sat, Inv;
    ghost var v := PV(cs.aux, p);
    var tmp := Denominator(cs, p);
    ghost var vt := V(cs.aux, tmp);
    var prod1 := cs.Alloc(Mul(Mul(3, V(cs.aux, p.x)), V(cs.aux, p.x)));
    cs.Enforce(L1(Scaled(3, p.x)), L1(Pos(p.x)), L1(Pos(prod1)));
    ghost var n := Add(V(cs.aux, prod1), K.a);
    lambda := cs.Alloc(Mul(if V(cs.aux, p.inf) == 1 then 1 else Inv(V(cs.aux, tmp)), Add(V(cs.aux, prod1), K.a)));
    cs.Enforce(L1(Pos(tmp)), L1(Pos(lambda)), L2(Pos(prod1), Scaled(K.a, One)));
    TwoNonzero(v.y);
    MulOne(K.a);
    HonestSlope(vt, n, if v.inf == 1 then 1 else Inv(vt));
    forall w | Sat(w, cs.constraints) && IsBit(V(w, p.inf))
      ensures Mul(if V(w, p.inf) == 1 then 1 else Add(V(w, p.y), V(w, p.y)), V(w, lambda)) == TangentRise(K.a, V(w, p.x))
    {
      ThreeTimes(V(w, p.x), V(w, p.y));
    }
  }

  lemma HonestSlope(d: Fe, n: Fe, i: Fe)
    ensures (d == 1 && i == 1) || (d != 0 && i == Inv(d)) ==> Mul(d, Mul(i, n)) == n
  {
    hide *;
    MulOne(n);
    if d != 0 && i == Inv(d) {
      MulInv(d);
      MulAssoc(d, i, n);
    }
  }

  method Double(cs: CS, p: PointWires) returns (r: PointWires)
    requires cs.Valid() && PIn(p, |cs.aux|)
    modifies cs
    ensures cs.Grown(old(cs.aux), old(cs.constraints)) && PIn(r, |cs.aux|)
    ensures forall w {:trigger Sat(w, cs.constraints)} :: Sat(w, cs.constraints) && IsBit(V(w, p.inf)) ==>
              DoubleRel(PV(w, p), PV(w, r))
    ensures old(cs.Honest()) && IsBit(V(cs.aux, p.inf)) && (V(cs.aux, p.inf) == 1 || V(cs.aux, p.y) != 0) ==> cs.Honest()
  {
    hide Mul, Add, Sub, Sat, Through, Tangent, TangentRise;
    var lambda := TangentSlopeWire(cs, p);
    var x, y := ThirdPoint(cs, lambda, p.x, p.y, p.x);
    var rx := SelectZeroOrNum2(cs, x, p.inf);
    var ry := SelectZeroOrNum2(cs, y, p.inf);
    r := PointWires(rx, ry, p.inf);
    forall w | Sat(w, cs.constraints) && IsBit(V(w, p.inf))
      ensures DoubleRel(PV(w, p), PV(w, r))
    {
      DoubleForced(PV(w, p), V(w, lambda));
    }
  }

  lemma DoubleForced(v: PointValue, l: Fe)
    requires IsBit(v.inf) && Mul(if v.inf == 1 then 1 else Add(v.y, v.y), l) == TangentRise(K.a, v.x)
    ensures v.inf == 0 && v.y != 0 ==> l == Tangent(K.a, v.x, v.y)
    ensures v.inf == 0 && v.y == 0 ==> TangentRise(K.a, v.x) == 0
  {
    hide Mul, Add, Tangent, TangentRise;
    MulOne(l);
    AddZero(0);
    if v.inf == 0 {
      MulComm(Add(v.y, v.y), l);
      if v.y != 0 { TangentForced(l, v.x, v.y); }
    }
  }

  // ------------------------------------------------------------- complete addition

  predicate BothBits(v: PointValue, u: PointValue) {
    IsBit(v.inf) && IsBit(u.inf)
  }

  function Or(a: Fe, b: Fe): Fe {
    if a == 1 || b == 1 then 1 else 0
  }

  /** What the inner addition says: identity operands are passed through, and points of
      different abscissae meet the chord law. */
  predicate InternalRel(v: PointValue, u: PointValue, o: PointValue, alo: Fe) {
    && alo == Or(v.inf, u.inf)
    && (v.inf == 1 ==> o == u)
    && (v.inf == 0 && u.inf == 1 ==> o == v)
    && (v.inf == 0 && u.inf == 0 ==> o.inf == 0)
    && (v.inf == 0 && u.inf == 0 && v.x != u.x ==> Point(o.x, o.y) == Through(Chord(v.x, v.y, u.x, u.y), v.x, v.y, u.x))
  }

  lemma OrForced(a: Fe, b: Fe, c: Fe)
    requires IsBit(a) && IsBit(b)
    ensures Mul(Sub(1, a), Sub(1, b)) == Sub(1, c) <==> c == Or(a, b)
  {
    hide Mul;
    MulOne(Sub(1, a));
    MulOne(Sub(1, b));
    MulOne(1);
  }

  /** 1 - c = (1 - a)(1 - b): c is a or b. */
  method OrWire(cs: CS, a: Wire, b: Wire) returns (c: Wire)
    requires cs.Valid() && In(a, |cs.aux|) && In(b, |cs.aux|)
    modifies cs
    ensures cs.Grown(old(cs.aux), old(cs.constraints)) && In(c, |cs.aux|)
    ensures forall w {:trigger Sat(w, cs.constraints)} :: Sat(w, cs.constraints) && IsBit(V(w, a)) && IsBit(V(w, b)) ==>
              V(w, c) == Or(V(w, a), V(w, b))
    ensures V(cs.aux, c) == Sub(1, Mul(Sub(1, V(cs.aux, a)), Sub(1, V(cs.aux, b))))
    ensures old(cs.Honest()) ==> cs.Honest()
  {
    hide Mul, Add, Sub, Sat, Or;
    c := cs.Alloc(Sub(1, Mul(Sub(1, V(cs.aux, a)), Sub(1, V(cs.aux, b)))));
    cs.Enforce(L2(Pos(One), Minus(a)), L2(Pos(One), Minus(b)), L2(Pos(One), Minus(c)));
    SubSub(1, Mul(Sub(1, V(cs.aux, a)), Sub(1, V(cs.aux, b))));
    forall w | Sat(w, cs.constraints) && IsBit(V(w, a)) && IsBit(V(w, b))
      ensures V(w, c) == Or(V(w, a), V(w, b))
    {
      OrForced(V(w, a), V(w, b), V(w, c));
    }
  }

  lemma SubSub(a: Fe, b: Fe)
    ensures Sub(a, Sub(a, b)) == b
  {
  }

  /** The slope of the chord, or of a made-up line when the flag is set. */
  method ChordSlopeWire(cs: CS, p: PointWires, q: PointWires, flag: Wire) returns (lambda: Wire)
    requires cs.Valid() && PIn(p, |cs.aux|) && PIn(q, |cs.aux|) && In(flag, |cs.aux|)
    modifies cs
    ensures cs.Grown(old(cs.aux), old(cs.constraints)) && In(lambda, |cs.aux|)
    ensures forall w {:trigger Sat(w, cs.constraints)} :: Sat(w, cs.constraints) && IsBit(V(w, flag)) && V(w, flag) == 0 ==>
              Mul(V(w, lambda), Sub(V(w, q.x), V(w, p.x))) == Sub(V(w, q.y), V(w, p.y))
    ensures old(cs.Honest()) && IsBit(V(cs.aux, flag)) && (V(cs.aux, flag) == 0 ==> V(cs.aux, q.x) != V(cs.aux, p.x))
         ==> cs.Honest()
  {
    hide Mul, Add, Sub, Sat, Inv;
    ghost var (v, u, f) := (PV(cs.aux, p), PV(cs.aux, q), V(cs.aux, flag));
    var xDiff := SelectOneOrDiff2(cs, q.x, p.x, flag);
    var xDiffInv := if V(cs.aux, flag) == 1 then 1 else Inv(Sub(V(cs.aux, q.x), V(cs.aux, p.x)));
    ghost var d := V(cs.aux, xDiff);
    lambda := cs.Alloc(Mul(Sub(V(cs.aux, q.y), V(cs.aux, p.y)), xDiffInv));
    cs.Enforce(L1(Pos(lambda)), L1(Pos(xDiff)), L2(Pos(q.y), Minus(p.y)));
    SubIsZero(u.x, v.x);
    HonestQuotient(Sub(u.y, v.y), d, xDiffInv);
  }

  lemma HonestQuotient(n: Fe, d: Fe, i: Fe)
    ensures (d == 1 && i == 1) || (d != 0 && i == Inv(d)) ==> Mul(Mul(n, i), d) == n
  {
    hide *;
    MulOne(n);
    if d != 0 && i == Inv(d) {
      MulInv(d);
      MulAssoc(n, i, d);
    }
  }

  /** Passes an identity operand through. */
  method PassThrough(cs: CS, p: PointWires, q: PointWires, x: Wire, y: Wire) returns (r: PointWires)
    requires cs.Valid() && PIn(p, |cs.aux|) && PIn(q, |cs.aux|) && In(x, |cs.aux|) && In(y, |cs.aux|)
    modifies cs
    ensures cs.Grown(old(cs.aux), old(cs.constraints)) && PIn(r, |cs.aux|)
    ensures forall w {:trigger Sat(w, cs.constraints)} :: Sat(w, cs.constraints) && BothBits(PV(w, p), PV(w, q)) ==>
              PV(w, r) == if V(w, p.inf) == 1 then PV(w, q) else if V(w, q.inf) == 1 then PV(w, p)
                          else PointValue(V(w, x), V(w, y), 0)
    ensures old(cs.Honest()) && BothBits(PV(cs.aux, p), PV(cs.aux, q)) ==> cs.Honest()
  {
    hide Sat;
    var x1 := ConditionallySelect(cs, p.x, x, q.inf);
    var rx := ConditionallySelect(cs, q.x, x1, p.inf);
    var y1 := ConditionallySelect(cs, p.y, y, q.inf);
    var ry := ConditionallySelect(cs, q.y, y1, p.inf);
    var inf1 := SelectNumOrZero(cs, p.inf, q.inf);
    var rinf := ConditionallySelect(cs, q.inf, inf1, p.inf);
    r := PointWires(rx, ry, rinf);
  }

  method AddInternal(cs: CS, p: PointWires, q: PointWires, equalX: Wire) returns (r: PointWires, atLeastOneInf: Wire)
    requires cs.Valid() && PIn(p, |cs.aux|) && PIn(q, |cs.aux|) && In(equalX, |cs.aux|)
    modifies cs
    ensures cs.Grown(old(cs.aux), old(cs.constraints)) && PIn(r, |cs.aux|) && In(atLeastOneInf, |cs.aux|)
    ensures forall w {:trigger Sat(w, cs.constraints)} ::
              Sat(w, cs.constraints) && BothBits(PV(w, p), PV(w, q))
              && V(w, equalX) == (if V(w, p.x) == V(w, q.x) then 1 else 0) ==>
              InternalRel(PV(w, p), PV(w, q), PV(w, r), V(w, atLeastOneInf))
    ensures (old(cs.Honest()) && BothBits(PV(cs.aux, p), PV(cs.aux, q))
             && V(cs.aux, equalX) == (if V(cs.aux, p.x) == V(cs.aux, q.x) then 1 else 0)) ==> cs.Honest()
  {
    hide Mul, Add, Sub, Sat, Through, Chord, InternalRel, V, PointOf;
    atLeastOneInf := OrWire(cs, p.inf, q.inf);
    var xDiffIsActual := OrWire(cs, atLeastOneInf, equalX);
    var lambda := ChordSlopeWire(cs, p, q, xDiffIsActual);
    var x, y := ThirdPoint(cs, lambda, p.x, p.y, q.x);
    r := PassThrough(cs, p, q, x, y);
    forall w | Sat(w, cs.constraints) && BothBits(PV(w, p), PV(w, q))
               && V(w, equalX) == (if V(w, p.x) == V(w, q.x) then 1 else 0)
      ensures InternalRel(PV(w, p), PV(w, q), PV(w, r), V(w, atLeastOneInf))
    {
      InternalForced(PV(w, p), PV(w, q), PV(w, r), V(w, atLeastOneInf), V(w, lambda), V(w, x), V(w, y));
    }
  }

  lemma InternalForced(v: PointValue, u: PointValue, o: PointValue, alo: Fe, l: Fe, x: Fe, y: Fe)
    requires BothBits(v, u) && alo == Or(v.inf, u.inf)
    requires o == if v.inf == 1 then u else if u.inf == 1 then v else PointValue(x, y, 0)
    requires Point(x, y) == Through(l, v.x, v.y, u.x)
    requires alo == 0 && v.x != u.x ==> Mul(l, Sub(u.x, v.x)) == Sub(u.y, v.y)
    ensures InternalRel(v, u, o, alo)
  {
    hide Mul, Sub, Through, Chord;
    if v.inf == 0 && u.inf == 0 && v.x != u.x {
      ChordForced(l, v.x, v.y, u.x, u.y);
    }
  }

  /** a ? p : infinity. */
  method SelectPointOrInfinity(cs: CS, p: PointWires, cond: Wire) returns (r: PointWires)
    requires cs.Valid() && PIn(p, |cs.aux|) && In(cond, |cs.aux|)
    modifies cs
    ensures cs.Grown(old(cs.aux), old(cs.constraints)) && PIn(r, |cs.aux|)
    ensures forall w {:trigger Sat(w, cs.constraints)} :: Sat(w, cs.constraints) && IsBit(V(w, cond)) ==>
              PV(w, r) == if V(w, cond) == 1 then PV(w, p) else PointValue(0, 0, 1)
    ensures old(cs.Honest()) && IsBit(V(cs.aux, cond)) ==> cs.Honest()
  {
    hide Sat;
    var x := SelectNumOrZero(cs, p.x, cond);
    var y := SelectNumOrZero(cs, p.y, cond);
    var inf := SelectNumOrOne(cs, p.inf, cond);
    r := PointWires(x, y, inf);
  }

  method SelectPoint(cs: CS, a: PointWires, b: PointWires, cond: Wire) returns (r: PointWires)
    requires cs.Valid() && PIn(a, |cs.aux|) && PIn(b, |cs.aux|) && In(cond, |cs.aux|)
    modifies cs
    ensures cs.Grown(old(cs.aux), old(cs.constraints)) && PIn(r, |cs.aux|)
    ensures forall w {:trigger Sat(w, cs.constraints)} :: Sat(w, cs.constraints) && IsBit(V(w, cond)) ==>
              PV(w, r) == if V(w, cond) == 1 then PV(w, a) else PV(w, b)
    ensures old(cs.Honest()) && IsBit(V(cs.aux, cond)) ==> cs.Honest()
  {
    hide Sat;
    var x := ConditionallySelect(cs, a.x, b.x, cond);
    var y := ConditionallySelect(cs, a.y, b.y, cond);
    var inf := ConditionallySelect(cs, a.inf, b.inf, cond);
    r := PointWires(x, y, inf);
  }

  /** Not a singular point of the curve: where the curve has a tangent. */
  predicate NonSingular(v: PointValue) {
    v.inf == 1 || v.y != 0 || TangentRise(K.a, v.x) != 0
  }

  lemma AndNotForced(a: Fe, b: Fe, c: Fe)
    requires IsBit(a) && IsBit(b)
    ensures Mul(a, Sub(1, b)) == c <==> c == if a == 1 && b == 0 then 1 else 0
  {
    hide Mul;
    MulOne(a);
    MulOne(Sub(1, b));
  }

  /** use_equal_x = equal_x and not at_least_one_inf. */
  method AndNotWire(cs: CS, a: Wire, b: Wire) returns (c: Wire)
    requires cs.Valid() && In(a, |cs.aux|) && In(b, |cs.aux|)
    modifies cs
    ensures cs.Grown(old(cs.aux), old(cs.constraints)) && In(c, |cs.aux|)
    ensures forall w {:trigger Sat(w, cs.constraints)} :: Sat(w, cs.constraints) && IsBit(V(w, a)) && IsBit(V(w, b)) ==>
              V(w, c) == if V(w, a) == 1 && V(w, b) == 0 then 1 else 0
    ensures old(cs.Honest()) ==> cs.Honest()
  {
    hide Mul, Sub, Sat;
    c := cs.Alloc(Mul(V(cs.aux, a), Sub(1, V(cs.aux, b))));
    cs.Enforce(L1(Pos(a)), L2(Pos(One), Minus(b)), L1(Pos(c)));
    forall w | Sat(w, cs.constraints) && IsBit(V(w, a)) && IsBit(V(w, b))
      ensures V(w, c) == if V(w, a) == 1 && V(w, b) == 0 then 1 else 0
    {
      AndNotForced(V(w, a), V(w, b), V(w, c));
    }
  }

  /** What a satisfied addition says. */
  predicate AddRel(v: PointValue, u: PointValue, o: PointValue) {
    IsBit(o.inf) && PointOf(o) == AddPoints(K, PointOf(v), PointOf(u))
  }

  /** The result for equal abscissae: the double, or infinity for different ordinates. */
  predicate EqualXRel(v: PointValue, u: PointValue, o: PointValue) {
    if v.y == u.y then DoubleRel(v, o) else o == PointValue(0, 0, 1)
  }

  lemma AddForced(v: PointValue, u: PointValue, o: PointValue, add: PointValue, forEqual: PointValue, alo: Fe)
    requires BothBits(v, u) && NonSingular(v)
    requires InternalRel(v, u, add, alo) && EqualXRel(v, u, forEqual)
    requires o == if v.x == u.x && alo == 0 then forEqual else add
    ensures AddRel(v, u, o)
  {
    hide Through, Chord, Tangent, TangentRise;
  }

  /** Infinite, not its own opposite, or a singular point: the doubling is satisfiable. */
  predicate CanDouble(v: PointValue) {
    v.inf == 1 || v.y != 0 || TangentRise(K.a, v.x) == 0
  }

  method ResultForEqualX(cs: CS, p: PointWires, q: PointWires) returns (r: PointWires)
    requires cs.Valid() && PIn(p, |cs.aux|) && PIn(q, |cs.aux|)
    modifies cs
    ensures cs.Grown(old(cs.aux), old(cs.constraints)) && PIn(r, |cs.aux|)
    ensures forall w {:trigger Sat(w, cs.constraints)} :: Sat(w, cs.constraints) && IsBit(V(w, p.inf)) ==>
              EqualXRel(PV(w, p), PV(w, q), PV(w, r)) && CanDouble(PV(w, p))
    ensures (old(cs.Honest()) && IsBit(V(cs.aux, p.inf)) && (V(cs.aux, p.inf) == 1 || V(cs.aux, p.y) != 0)) ==> cs.Honest()
  {
    hide Sat, DoubleRel, CanDouble, V;
    var equalY := AllocNumEquals(cs, p.y, q.y);
    var resultFromDouble := Double(cs, p);
    r := SelectPointOrInfinity(cs, resultFromDouble, equalY);
    forall w | Sat(w, cs.constraints) && IsBit(V(w, p.inf)) ensures CanDouble(PV(w, p)) {
      SatisfiedCanDouble(PV(w, p), PV(w, resultFromDouble));
    }
  }

  lemma SatisfiedCanDouble(v: PointValue, o: PointValue)
    requires DoubleRel(v, o) && IsBit(v.inf)
    ensures CanDouble(v)
  {
    hide TangentRise, Tangent, Through;
  }

  /** The complete addition.  Soundness: every satisfying assignment outputs the sum of
      the two points, whatever the coordinates of an operand flagged infinite, and there
      is none for a first operand that is its own opposite.  Completeness: the prover's
      values satisfy the constraints when the first operand is infinite or not its own
      opposite. */
  method AddComplete(cs: CS, p: PointWires, q: PointWires) returns (r: PointWires)
    requires cs.Valid() && PIn(p, |cs.aux|) && PIn(q, |cs.aux|)
    modifies cs
    ensures cs.Grown(old(cs.aux), old(cs.constraints)) && PIn(r, |cs.aux|)
    ensures forall w {:trigger Sat(w, cs.constraints)} :: Sat(w, cs.constraints) && BothBits(PV(w, p), PV(w, q)) ==>
              CanDouble(PV(w, p)) && (NonSingular(PV(w, p)) ==> AddRel(PV(w, p), PV(w, q), PV(w, r)))
    ensures (old(cs.Honest()) && BothBits(PV(cs.aux, p), PV(cs.aux, q)) && (V(cs.aux, p.inf) == 1 || V(cs.aux, p.y) != 0))
         ==> cs.Honest()
  {
    hide Sat, InternalRel, EqualXRel, AddRel, NonSingular, CanDouble, V, Or;
    var equalX := AllocNumEquals(cs, p.x, q.x);
    var resultFromAdd, atLeastOneInf := AddInternal(cs, p, q, equalX);
    var resultForEqualX := ResultForEqualX(cs, p, q);
    var useEqualX := AndNotWire(cs, equalX, atLeastOneInf);
    forall w | Sat(w, cs.constraints) && BothBits(PV(w, p), PV(w, q))
      ensures IsBit(V(w, atLeastOneInf))
    {
      InternalBit(PV(w, p), PV(w, q), PV(w, resultFromAdd), V(w, atLeastOneInf));
    }
    r := SelectPoint(cs, resultForEqualX, resultFromAdd, useEqualX);
    forall w | Sat(w, cs.constraints) && BothBits(PV(w, p), PV(w, q)) && NonSingular(PV(w, p))
      ensures AddRel(PV(w, p), PV(w, q), PV(w, r))
    {
      AddForced(PV(w, p), PV(w, q), PV(w, r), PV(w, resultFromAdd), PV(w, resultForEqualX), V(w, atLeastOneInf));
    }
  }

  lemma InternalBit(v: PointValue, u: PointValue, o: PointValue, alo: Fe)
    requires InternalRel(v, u, o, alo)
    ensures IsBit(alo) && alo == Or(v.inf, u.inf)
  {
  }
}
