/** The group of curve points that commitments and multi-scalar products live in:
    an arbitrary abelian group of exponent P.

    Like the modulus, the group is a constant whose value is not given: a point
    is an integer code, and `GR` holds the membership test and the operations.
    The laws are quantified behind `Pick` so that each proof says which instance
    it uses. */
module PrimeGroup {
  import opened PrimeField

  datatype GroupLaw = GroupLaw(mem: int -> bool, id: int, add: (int, int) -> int, neg: int -> int)

  predicate Pick(a: int, b: int, c: int) { true }

  ghost predicate Closed(g: GroupLaw) {
    && g.mem(g.id)
    && forall a, b, c {:trigger Pick(a, b, c)} ::
         Pick(a, b, c) && g.mem(a) && g.mem(b) ==> g.mem(g.add(a, b)) && g.mem(g.neg(a))
  }

  ghost predicate Abelian(g: GroupLaw) {
    forall a, b, c {:trigger Pick(a, b, c)} ::
      Pick(a, b, c) && g.mem(a) && g.mem(b) && g.mem(c) ==>
        && g.add(g.add(a, b), c) == g.add(a, g.add(b, c))
        && g.add(a, b) == g.add(b, a)
        && g.add(a, g.id) == a
        && g.add(a, g.neg(a)) == g.id
  }

  function Iterate(g: GroupLaw, n: nat, a: int): int {
    if n == 0 then g.id else g.add(Iterate(g, n - 1, a), a)
  }

  ghost predicate Exponent(g: GroupLaw) {
    forall a, b, c {:trigger Pick(a, b, c)} :: Pick(a, b, c) && g.mem(a) ==> Iterate(g, P, a) == g.id
  }

  const TRIVIAL := GroupLaw(x => x == 0, 0, (x, y) => 0, x => 0)

  lemma TrivialIterate(n: nat)
    ensures Iterate(TRIVIAL, n, 0) == 0
  {
  }

  type PrimeGroupLaw = g: GroupLaw | Closed(g) && Abelian(g) && Exponent(g)
    witness (TrivialIterate(P); TRIVIAL)

  const GR: PrimeGroupLaw

  type Pt = x: int | GR.mem(x) witness GR.id

  // ----------------------------------------------------------------- operations

  const O: Pt := GR.id

  function Plus(a: Pt, b: Pt): Pt {
    assert Pick(a, b, 0);
    GR.add(a, b)
  }

  function Opp(a: Pt): Pt {
    assert Pick(a, a, 0);
    GR.neg(a)
  }

  function Minus(a: Pt, b: Pt): Pt {
    Plus(a, Opp(b))
  }

  /** n-fold sum of a point, for every integer n. */
  function Smul(n: int, a: Pt): Pt
    decreases if n < 0 then -n else n
  {
    if n == 0 then O
    else if n > 0 then Plus(Smul(n - 1, a), a)
    else Plus(Smul(n + 1, a), Opp(a))
  }

  // ----------------------------------------------------------------- group laws

  lemma PlusAssoc(a: Pt, b: Pt, c: Pt)
    ensures Plus(Plus(a, b), c) == Plus(a, Plus(b, c))
  {
    assert Pick(a, b, c);
  }

  lemma PlusComm(a: Pt, b: Pt)
    ensures Plus(a, b) == Plus(b, a)
  {
    assert Pick(a, b, a);
  }

  lemma PlusO(a: Pt)
    ensures Plus(a, O) == a && Plus(O, a) == a
  {
    PlusComm(a, O);
    assert Pick(a, O, O);
  }

  lemma PlusOpp(a: Pt)
    ensures Plus(a, Opp(a)) == O && Plus(Opp(a), a) == O
  {
    PlusComm(a, Opp(a));
    assert Pick(a, a, a);
  }

  /** (a + b) + (c + d) == (a + c) + (b + d) */
  lemma PlusSwap(a: Pt, b: Pt, c: Pt, d: Pt)
    ensures Plus(Plus(a, b), Plus(c, d)) == Plus(Plus(a, c), Plus(b, d))
  {
    hide *;
    PlusAssoc(a, b, Plus(c, d));
    PlusAssoc(b, c, d);
    PlusComm(b, c);
    PlusAssoc(c, b, d);
    PlusAssoc(a, c, Plus(b, d));
  }

  lemma Cancel(a: Pt, b: Pt, c: Pt)
    requires Plus(a, b) == Plus(a, c)
    ensures b == c
  {
    hide *;
    PlusAssoc(Opp(a), a, b);
    PlusAssoc(Opp(a), a, c);
    PlusOpp(a);
    PlusO(b);
    PlusO(c);
  }

  lemma OppUnique(a: Pt, b: Pt)
    requires Plus(a, b) == O
    ensures b == Opp(a)
  {
    hide *;
    PlusOpp(a);
    Cancel(a, b, Opp(a));
  }

  lemma OppPlus(a: Pt, b: Pt)
    ensures Opp(Plus(a, b)) == Plus(Opp(a), Opp(b))
  {
    hide *;
    PlusSwap(a, b, Opp(a), Opp(b));
    PlusOpp(a);
    PlusOpp(b);
    PlusO(O);
    OppUnique(Plus(a, b), Plus(Opp(a), Opp(b)));
  }

  lemma OppOpp(a: Pt)
    ensures Opp(Opp(a)) == a
  {
    hide *;
    PlusOpp(a);
    OppUnique(Opp(a), a);
  }

  lemma OppO()
    ensures Opp(O) == O
  {
    hide *;
    PlusO(O);
    OppUnique(O, O);
  }

  // ------------------------------------------------------------ scalar multiples

  lemma {:induction false} SmulSucc(n: int, a: Pt)
    ensures Smul(n + 1, a) == Plus(Smul(n, a), a)
  {
    if n < 0 {
      PlusAssoc(Smul(n + 1, a), Opp(a), a);
      PlusOpp(a);
      PlusO(Smul(n + 1, a));
    }
  }

  lemma {:induction false} SmulPred(n: int, a: Pt)
    ensures Smul(n - 1, a) == Plus(Smul(n, a), Opp(a))
  {
    SmulSucc(n - 1, a);
    PlusAssoc(Smul(n - 1, a), a, Opp(a));
    PlusOpp(a);
    PlusO(Smul(n - 1, a));
  }

  lemma SmulSmall(a: Pt)
    ensures Smul(0, a) == O && Smul(1, a) == a && Smul(-1, a) == Opp(a) && Smul(2, a) == Plus(a, a)
  {
    PlusO(a);
    PlusO(Opp(a));
    assert Smul(1, a) == a;
  }

  lemma {:induction false} SmulAdd(m: int, n: int, a: Pt)
    ensures Smul(m + n, a) == Plus(Smul(m, a), Smul(n, a))
    decreases if n < 0 then -n else n
  {
    hide Plus, Opp;
    if n == 0 {
      PlusO(Smul(m, a));
    } else if n > 0 {
      SmulAdd(m, n - 1, a);
      SmulSucc(m + n - 1, a);
      PlusAssoc(Smul(m, a), Smul(n - 1, a), a);
    } else {
      SmulAdd(m, n + 1, a);
      SmulPred(m + n + 1, a);
      PlusAssoc(Smul(m, a), Smul(n + 1, a), Opp(a));
    }
  }

  lemma SmulNeg(n: int, a: Pt)
    ensures Smul(-n, a) == Opp(Smul(n, a))
  {
    hide *;
    SmulAdd(n, -n, a);
    SmulSmall(a);
    OppUnique(Smul(n, a), Smul(-n, a));
  }

  lemma SmulSub(m: int, n: int, a: Pt)
    ensures Smul(m - n, a) == Minus(Smul(m, a), Smul(n, a))
  {
    SmulAdd(m, -n, a);
    SmulNeg(n, a);
  }

  lemma {:induction false} SmulPlus(n: int, a: Pt, b: Pt)
    ensures Smul(n, Plus(a, b)) == Plus(Smul(n, a), Smul(n, b))
    decreases if n < 0 then -n else n
  {
    hide Plus, Opp;
    if n == 0 {
      PlusO(O);
    } else if n > 0 {
      SmulPlus(n - 1, a, b);
      PlusSwap(Smul(n - 1, a), Smul(n - 1, b), a, b);
    } else {
      SmulPlus(n + 1, a, b);
      OppPlus(a, b);
      PlusSwap(Smul(n + 1, a), Smul(n + 1, b), Opp(a), Opp(b));
    }
  }

  lemma {:induction false} SmulMul(m: int, n: int, a: Pt)
    ensures Smul(m * n, a) == Smul(m, Smul(n, a))
    decreases if m < 0 then -m else m
  {
    hide Plus, Opp;
    if m == 0 {
    } else if m > 0 {
      SmulMul(m - 1, n, a);
      assert m * n == (m - 1) * n + n;
      SmulAdd((m - 1) * n, n, a);
    } else {
      SmulMul(m + 1, n, a);
      assert m * n == (m + 1) * n + (-n);
      SmulAdd((m + 1) * n, -n, a);
      SmulNeg(n, a);
    }
  }

  lemma {:induction false} SmulO(n: int)
    ensures Smul(n, O) == O
    decreases if n < 0 then -n else n
  {
    hide Plus, Opp;
    PlusO(O);
    OppO();
    if n > 0 { SmulO(n - 1); }
    if n < 0 { SmulO(n + 1); }
  }

  lemma SmulOpp(n: int, a: Pt)
    ensures Smul(n, Opp(a)) == Opp(Smul(n, a))
  {
    hide *;
    SmulPlus(n, a, Opp(a));
    PlusOpp(a);
    SmulO(n);
    OppUnique(Smul(n, a), Smul(n, Opp(a)));
  }

  lemma MinusIsO(a: Pt, b: Pt)
    ensures Minus(a, b) == O <==> a == b
  {
    PlusOpp(b);
    if Minus(a, b) == O {
      OppUnique(a, Opp(b));
      OppOpp(b);
      OppOpp(a);
    }
  }

  /** (a + b) - (c + d) == (a - c) + (b - d) */
  lemma MinusSwap(a: Pt, b: Pt, c: Pt, d: Pt)
    ensures Minus(Plus(a, b), Plus(c, d)) == Plus(Minus(a, c), Minus(b, d))
  {
    hide Plus, Opp;
    OppPlus(c, d);
    PlusSwap(a, b, Opp(c), Opp(d));
  }

  lemma SmulMinus(n: int, a: Pt, b: Pt)
    ensures Smul(n, Minus(a, b)) == Minus(Smul(n, a), Smul(n, b))
  {
    SmulPlus(n, a, Opp(b));
    SmulOpp(n, b);
  }

  // ------------------------------------------------------ scalars are residues

  lemma {:induction false} SmulIterate(n: nat, a: Pt)
    ensures Smul(n, a) == Iterate(GR, n, a)
  {
    if n > 0 { SmulIterate(n - 1, a); }
  }

  lemma SmulP(a: Pt)
    ensures Smul(P, a) == O
  {
    SmulIterate(P, a);
    assert Pick(a, a, a);
  }

  /** Only the residue of a scalar matters. */
  lemma SmulR(n: int, a: Pt)
    ensures Smul(R(n), a) == Smul(n, a)
  {
    hide *;
    var q := RQuotient(n);
    SmulAdd(R(n), q * P, a);
    assert q * P == P * q;
    SmulMul(q, P, a);
    SmulP(a);
    SmulO(q);
    PlusO(Smul(R(n), a));
  }

  lemma SmulFAdd(x: Fe, y: Fe, a: Pt)
    ensures Smul(Add(x, y), a) == Plus(Smul(x, a), Smul(y, a))
  {
    hide *;
    ROf(x);
    ROf(y);
    HomAdd(x, y);
    SmulR(x + y, a);
    SmulAdd(x, y, a);
  }

  lemma SmulFSub(x: Fe, y: Fe, a: Pt)
    ensures Smul(Sub(x, y), a) == Minus(Smul(x, a), Smul(y, a))
  {
    hide *;
    ROf(x);
    ROf(y);
    HomSub(x, y);
    SmulR(x - y, a);
    SmulSub(x, y, a);
  }

  lemma SmulFMul(x: Fe, y: Fe, a: Pt)
    ensures Smul(Mul(x, y), a) == Smul(x, Smul(y, a))
  {
    hide *;
    MulIsProduct(x, y);
    SmulR(x * y, a);
    SmulMul(x, y, a);
  }
}
