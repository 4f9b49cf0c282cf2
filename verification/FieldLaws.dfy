/** Field laws used across the project: the ring laws, inverses, and the absence
    of zero divisors.

    A ring identity `Foo` is proved by carrying the integer identity `FooI` over
    with `PrimeField.Hom`. */
module FieldLaws {
  import opened PrimeField

  // ------------------------------------------------------------------- addition

  lemma AddComm(a: Fe, b: Fe)
    ensures Add(a, b) == Add(b, a)
  {
  }

  lemma AddAssoc(a: Fe, b: Fe, c: Fe)
    ensures Add(Add(a, b), c) == Add(a, Add(b, c))
  {
  }

  lemma AddSwap(a: Fe, b: Fe, c: Fe, d: Fe)
    ensures Add(Add(a, b), Add(c, d)) == Add(Add(a, c), Add(b, d))
  {
  }

  lemma AddZero(a: Fe)
    ensures Add(a, 0) == a && Add(0, a) == a && Sub(a, 0) == a && Sub(a, a) == 0
  {
  }

  lemma SubIsZero(a: Fe, b: Fe)
    ensures Sub(a, b) == 0 <==> a == b
  {
  }

  lemma AddSub(a: Fe, b: Fe)
    ensures Sub(Add(a, b), b) == a && Add(Sub(a, b), b) == a && Add(a, Sub(b, a)) == b
  {
  }

  lemma AddCancel(a: Fe, b: Fe, c: Fe)
    ensures Add(a, c) == Add(b, c) <==> a == b
    ensures Add(c, a) == Add(c, b) <==> a == b
  {
  }

  // -------------------------------------------------------------- multiplication

  lemma MulComm(a: Fe, b: Fe)
    ensures Mul(a, b) == Mul(b, a)
  {
    hide *;
    Hom();
    ROf(a); ROf(b);
    MulCommI(a, b);
  }

  lemma MulCommI(a: int, b: int)
    ensures IMul(a, b) == IMul(b, a)
  {
  }

  lemma MulAssoc(a: Fe, b: Fe, c: Fe)
    ensures Mul(Mul(a, b), c) == Mul(a, Mul(b, c))
  {
    hide *;
    Hom();
    ROf(a); ROf(b); ROf(c);
    MulAssocI(a, b, c);
  }

  lemma MulAssocI(a: int, b: int, c: int)
    ensures IMul(IMul(a, b), c) == IMul(a, IMul(b, c))
  {
  }

  lemma MulAdd(a: Fe, b: Fe, c: Fe)
    ensures Mul(a, Add(b, c)) == Add(Mul(a, b), Mul(a, c))
  {
    hide *;
    Hom();
    ROf(a); ROf(b); ROf(c);
    MulAddI(a, b, c);
  }

  lemma MulAddI(a: int, b: int, c: int)
    ensures IMul(a, IAdd(b, c)) == IAdd(IMul(a, b), IMul(a, c))
  {
  }

  lemma AddMul(a: Fe, b: Fe, c: Fe)
    ensures Mul(Add(a, b), c) == Add(Mul(a, c), Mul(b, c))
  {
    hide *;
    Hom();
    ROf(a); ROf(b); ROf(c);
    AddMulI(a, b, c);
  }

  lemma AddMulI(a: int, b: int, c: int)
    ensures IMul(IAdd(a, b), c) == IAdd(IMul(a, c), IMul(b, c))
  {
  }

  lemma MulSub(a: Fe, b: Fe, c: Fe)
    ensures Mul(a, Sub(b, c)) == Sub(Mul(a, b), Mul(a, c))
  {
    hide *;
    Hom();
    ROf(a); ROf(b); ROf(c);
    MulSubI(a, b, c);
  }

  lemma MulSubI(a: int, b: int, c: int)
    ensures IMul(a, ISub(b, c)) == ISub(IMul(a, b), IMul(a, c))
  {
  }

  lemma SubMul(a: Fe, b: Fe, c: Fe)
    ensures Mul(Sub(a, b), c) == Sub(Mul(a, c), Mul(b, c))
  {
    hide *;
    Hom();
    ROf(a); ROf(b); ROf(c);
    SubMulI(a, b, c);
  }

  lemma SubMulI(a: int, b: int, c: int)
    ensures IMul(ISub(a, b), c) == ISub(IMul(a, c), IMul(b, c))
  {
  }

  lemma MulSwap(a: Fe, b: Fe, c: Fe, d: Fe)
    ensures Mul(Mul(a, b), Mul(c, d)) == Mul(Mul(a, c), Mul(b, d))
  {
    hide *;
    Hom();
    ROf(a); ROf(b); ROf(c); ROf(d);
    MulSwapI(a, b, c, d);
  }

  lemma MulSwapI(a: int, b: int, c: int, d: int)
    ensures IMul(IMul(a, b), IMul(c, d)) == IMul(IMul(a, c), IMul(b, d))
  {
  }

  lemma MulOne(a: Fe)
    ensures Mul(a, 1) == a && Mul(1, a) == a && Mul(a, 0) == 0 && Mul(0, a) == 0
  {
    MulComm(a, 1);
    MulComm(a, 0);
    assert Mul(a, 1) == Add(Mul(a, 0), a);
  }

  // ----------------------------------------------------------------- inverses

  /** Euclid's algorithm with its certificate: x*a + y*b == d divides both. */
  lemma {:induction false} Euclid(a: nat, b: nat) returns (x: int, y: int, d: nat, s: int, t: int)
    requires a > 0
    ensures x * a + y * b == d && d > 0
    ensures a == d * s && b == d * t
    decreases b
  {
    if b == 0 {
      x, y, d, s, t := 1, 0, a, 1, 0;
    } else {
      var q, m := a / b, a % b;
      assert a == b * q + m;
      var x', y', s', t';
      x', y', d, s', t' := Euclid(b, m);
      x, y, s, t := y', x' - q * y', s' * q + t', s';
      assert b * q == d * (s' * q) by { assert b == d * s'; }
      assert d * (s' * q + t') == d * (s' * q) + d * t';
      assert y' * a + (x' - q * y') * b == x' * b + y' * m by {
        EuclidStep(a, b, q, m, x', y');
      }
    }
  }

  lemma EuclidStep(a: int, b: int, q: int, m: int, x: int, y: int)
    requires a == b * q + m
    ensures y * a + (x - q * y) * b == x * b + y * m
  {
  }

  lemma MulMono(d: int, k: int, l: int)
    requires d >= 0 && k <= l
    ensures d * k <= d * l
  {
  }

  lemma SmallMultiple(d: int, k: int)
    requires 0 <= d * k < d
    ensures k == 0
  {
    if k >= 1 { MulMono(d, 1, k); }
    if k <= -1 { MulMono(d, k, -1); }
  }

  lemma DividesFromProduct(d: int, t: int, n: int)
    requires d > 0 && n == d * t
    ensures Divides(d, n)
  {
    var q, m := n / d, n % d;
    assert d * (t - q) == m;
    SmallMultiple(d, t - q);
  }

  lemma CoprimeToP(a: Fe) returns (x: int)
    requires a != 0
    ensures R(x * a) == 1
  {
    hide R;
    var y, d, s, t;
    x, y, d, s, t := Euclid(a, P);
    DividesFromProduct(d, t, P);
    if d >= 2 {
      assert false;
    }
    assert x * a == 1 + P * (-y);
    RShift(1, -y);
    ROf(1);
  }

  lemma InverseExists(a: Fe) returns (b: Fe)
    requires a != 0
    ensures Mul(a, b) == 1
  {
    hide *;
    var x := CoprimeToP(a);
    b := R(x);
    HomMul(a, x);
    ROf(a);
    assert a * x == x * a;
  }

  lemma {:induction false} FirstInverseFinds(a: Fe, k: nat, b: Fe)
    requires k <= b && Mul(a, b) == 1
    ensures Mul(a, FirstInverse(a, k)) == 1
    decreases P - k
  {
    if Mul(a, k) != 1 { FirstInverseFinds(a, k + 1, b); }
  }

  lemma MulInv(a: Fe)
    requires a != 0
    ensures Mul(a, Inv(a)) == 1 && Mul(Inv(a), a) == 1 && Inv(a) != 0
  {
    var b := InverseExists(a);
    FirstInverseFinds(a, 0, b);
    MulComm(a, Inv(a));
    MulOne(a);
  }

  lemma MulCancel(a: Fe, b: Fe, c: Fe)
    requires c != 0 && Mul(a, c) == Mul(b, c)
    ensures a == b
  {
    hide *;
    MulInv(c);
    MulAssoc(a, c, Inv(c));
    MulAssoc(b, c, Inv(c));
    MulOne(a);
    MulOne(b);
  }

  lemma InvUnique(a: Fe, b: Fe)
    requires Mul(a, b) == 1
    ensures a != 0 && b != 0 && b == Inv(a) && a == Inv(b)
  {
    hide *;
    MulOne(a);
    MulOne(b);
    MulComm(a, b);
    MulInv(a);
    MulInv(b);
    MulComm(b, a);
    MulComm(Inv(a), a);
    MulComm(Inv(b), b);
    MulCancel(b, Inv(a), a);
    MulCancel(a, Inv(b), b);
  }

  lemma NoZeroDivisors(a: Fe, b: Fe)
    ensures Mul(a, b) == 0 <==> a == 0 || b == 0
  {
    hide *;
    MulOne(a);
    MulOne(b);
    if Mul(a, b) == 0 && b != 0 {
      MulCancel(a, 0, b);
    }
  }

  lemma InvMul(a: Fe, b: Fe)
    requires a != 0 && b != 0
    ensures Inv(Mul(a, b)) == Mul(Inv(a), Inv(b))
  {
    hide *;
    MulInv(a);
    MulInv(b);
    MulSwap(a, b, Inv(a), Inv(b));
    MulOne(1);
    InvUnique(Mul(a, b), Mul(Inv(a), Inv(b)));
  }
}
