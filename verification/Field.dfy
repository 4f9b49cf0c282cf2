/** The scalar and base fields of the curves: the integers modulo a prime.

    The prime is a constant whose value is not given, so everything proved here
    holds for every prime above 7.  A field element is its canonical residue;
    the field operations are written with sums and comparisons only, and `R` is
    the reduction map from the integers.  `Hom` says that `R` is a ring
    homomorphism, which is how polynomial identities over the integers are
    carried over to the field. */
module PrimeField {

  // ---------------------------------------------------------------- the modulus

  predicate Divides(d: int, n: int)
    requires d > 0
  {
    n % d == 0
  }

  ghost predicate IsPrime(p: int) {
    p >= 2 && forall d | 2 <= d < p :: !Divides(d, p)
  }

  lemma ElevenIsPrime()
    ensures IsPrime(11)
  {
    assert forall d | 2 <= d < 11 :: !Divides(d, 11);
  }

  type Prime = p: int | p > 7 && IsPrime(p) witness (ElevenIsPrime(); 11)

  const P: Prime

  type Fe = x: int | 0 <= x < P witness 0

  // ----------------------------------------------------------------- operations

  /** Reduction of an integer to its residue. */
  function R(n: int): Fe
    decreases if n < 0 then P - n else n
  {
    if n < 0 then R(n + P) else if n < P then n else R(n - P)
  }

  function Add(a: Fe, b: Fe): Fe {
    if a + b < P then a + b else a + b - P
  }

  function Sub(a: Fe, b: Fe): Fe {
    if a >= b then a - b else a - b + P
  }

  function Neg(a: Fe): Fe {
    Sub(0, a)
  }

  /** b-fold sum of a. */
  function Mul(a: Fe, b: Fe): Fe
    decreases b
  {
    if b == 0 then 0 else Add(Mul(a, b - 1), a)
  }

  function Sq(a: Fe): Fe {
    Mul(a, a)
  }

  function Dbl(a: Fe): Fe {
    Add(a, a)
  }

  function FirstInverse(a: Fe, k: nat): Fe
    requires k <= P
    decreases P - k
  {
    if k == P then 0 else if Mul(a, k) == 1 then k else FirstInverse(a, k + 1)
  }

  /** The multiplicative inverse; 0 for 0. */
  function Inv(a: Fe): Fe {
    FirstInverse(a, 0)
  }

  // ------------------------------------------------------------ integer mirrors

  // The integer operations under names of their own, so that a proof can keep
  // them uninterpreted while it moves between the field and the integers.
  ghost function IAdd(m: int, n: int): int { m + n }
  ghost function ISub(m: int, n: int): int { m - n }
  ghost function IMul(m: int, n: int): int { m * n }

  // ------------------------------------------------------- R is a homomorphism

  lemma ROf(x: Fe)
    ensures R(x) == x
  {
  }

  lemma {:induction false} RShiftUp(n: int, k: nat)
    ensures R(n + P * k) == R(n)
    decreases k
  {
    if k > 0 {
      RShiftUp(n, k - 1);
      assert n + P * k == (n + P * (k - 1)) + P;
      RStep(n + P * (k - 1));
    }
  }

  lemma {:induction false} RStep(n: int)
    ensures R(n + P) == R(n)
  {
  }

  lemma RShift(n: int, k: int)
    ensures R(n + P * k) == R(n)
  {
    if k >= 0 {
      RShiftUp(n, k);
    } else {
      assert (n + P * k) + P * (-k) == n;
      RShiftUp(n + P * k, -k);
    }
  }

  /** An integer is its residue plus a multiple of P. */
  lemma {:induction false} RQuotient(n: int) returns (q: int)
    ensures n == R(n) + P * q
    decreases if n < 0 then P - n else n
  {
    if n < 0 {
      q := RQuotient(n + P);
      assert P * (q - 1) == P * q - P;
      q := q - 1;
    } else if n < P {
      q := 0;
    } else {
      q := RQuotient(n - P);
      assert P * (q + 1) == P * q + P;
      q := q + 1;
    }
  }

  lemma HomAdd(m: int, n: int)
    ensures Add(R(m), R(n)) == R(m + n)
  {
    hide R;
    var a := RQuotient(m);
    var b := RQuotient(n);
    assert m + n == (R(m) + R(n)) + P * (a + b);
    RShift(R(m) + R(n), a + b);
    RSmall(R(m) + R(n));
  }

  lemma RSmall(s: int)
    requires 0 - P <= s < 2 * P
    ensures R(s) == if s < 0 then s + P else if s < P then s else s - P
  {
  }

  lemma HomSub(m: int, n: int)
    ensures Sub(R(m), R(n)) == R(m - n)
  {
    hide R;
    var a := RQuotient(m);
    var b := RQuotient(n);
    assert m - n == (R(m) - R(n)) + P * (a - b);
    RShift(R(m) - R(n), a - b);
    RSmall(R(m) - R(n));
  }

  /** Repeated addition is multiplication modulo P. */
  lemma {:induction false} MulIsProduct(a: Fe, b: Fe)
    ensures Mul(a, b) == R(a * b)
    decreases b
  {
    hide R;
    if b == 0 {
      ROf(0);
    } else {
      MulIsProduct(a, b - 1);
      HomAdd(a * (b - 1), a);
      ROf(a);
      assert a * (b - 1) + a == a * b;
    }
  }

  lemma HomMul(m: int, n: int)
    ensures Mul(R(m), R(n)) == R(m * n)
  {
    hide *;
    var a := RQuotient(m);
    var b := RQuotient(n);
    MulIsProduct(R(m), R(n));
    ProductOfShifted(R(m), a, R(n), b, P);
    RShift(R(m) * R(n), R(m) * b + a * R(n) + a * (P * b));
  }

  lemma ProductOfShifted(x: int, a: int, y: int, b: int, p: int)
    ensures (x + p * a) * (y + p * b) == x * y + p * (x * b + a * y + a * (p * b))
  {
  }

  /** R carries sums, differences and products of integers to the field. */
  lemma Hom()
    ensures forall m, n {:trigger Add(R(m), R(n))} :: Add(R(m), R(n)) == R(IAdd(m, n))
    ensures forall m, n {:trigger Sub(R(m), R(n))} :: Sub(R(m), R(n)) == R(ISub(m, n))
    ensures forall m, n {:trigger Mul(R(m), R(n))} :: Mul(R(m), R(n)) == R(IMul(m, n))
  {
    forall m, n ensures Add(R(m), R(n)) == R(IAdd(m, n)) { hide R, Add; HomAdd(m, n); }
    forall m, n ensures Sub(R(m), R(n)) == R(ISub(m, n)) { hide R, Sub; HomSub(m, n); }
    forall m, n ensures Mul(R(m), R(n)) == R(IMul(m, n)) { hide R, Mul; HomMul(m, n); }
  }
}
