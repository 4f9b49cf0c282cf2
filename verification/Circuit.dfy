/** A constraint system that gadgets append to, and the small gadgets the curve
    gadgets rest on: equality test and selections.

    A gadget's contract has two halves.  Soundness: under every assignment that
    satisfies the grown system, the output wire carries the stated value of the input
    wires.  Completeness: the values the prover allocates satisfy the constraints. */
module Circuit {
  import opened PrimeField
  import opened FieldLaws

  // ---------------------------------------------------------- constraint systems

  datatype Wire = One | Aux(i: nat)

  datatype Term = Pos(w: Wire) | Minus(w: Wire) | Scaled(k: Fe, w: Wire)

  /** The gadgets never combine more than three wires. */
  datatype Lc = L0 | L1(a: Term) | L2(a: Term, b: Term) | L3(a: Term, b: Term, c: Term)

  datatype Constraint = Constraint(a: Lc, b: Lc, c: Lc)

  type Assignment = seq<Fe>

  function V(w: Assignment, x: Wire): Fe {
    match x
    case One => 1
    case Aux(i) => if i < |w| then w[i] else 0
  }

  function First(w: Assignment, t: Term): Fe {
    match t
    case Pos(x) => V(w, x)
    case Minus(x) => Neg(V(w, x))
    case Scaled(k, x) => Mul(k, V(w, x))
  }

  function Then(acc: Fe, w: Assignment, t: Term): Fe {
    match t
    case Pos(x) => Add(acc, V(w, x))
    case Minus(x) => Sub(acc, V(w, x))
    case Scaled(k, x) => Add(acc, Mul(k, V(w, x)))
  }

  function Value(w: Assignment, l: Lc): Fe {
    match l
    case L0 => 0
    case L1(a) => First(w, a)
    case L2(a, b) => Then(First(w, a), w, b)
    case L3(a, b, c) => Then(Then(First(w, a), w, b), w, c)
  }

  predicate Holds(w: Assignment, k: Constraint) {
    Mul(Value(w, k.a), Value(w, k.b)) == Value(w, k.c)
  }

  ghost predicate Sat(w: Assignment, s: seq<Constraint>) {
    forall i :: 0 <= i < |s| ==> Holds(w, s[i])
  }

  predicate In(x: Wire, n: nat) {
    x.Aux? ==> x.i < n
  }

  predicate LcIn(l: Lc, n: nat) {
    match l
    case L0 => true
    case L1(a) => In(a.w, n)
    case L2(a, b) => In(a.w, n) && In(b.w, n)
    case L3(a, b, c) => In(a.w, n) && In(b.w, n) && In(c.w, n)
  }

  predicate ConstraintIn(k: Constraint, n: nat) {
    LcIn(k.a, n) && LcIn(k.b, n) && LcIn(k.c, n)
  }

  lemma HoldsKept(w: Assignment, u: Assignment, k: Constraint)
    requires w <= u && ConstraintIn(k, |w|)
    ensures Holds(w, k) == Holds(u, k)
  {
    hide Mul, Value, LcIn;
    ValueKept(w, u, k.a);
    ValueKept(w, u, k.b);
    ValueKept(w, u, k.c);
  }

  /** A combination of wires in range does not see a longer assignment. */
  lemma ValueKept(w: Assignment, u: Assignment, l: Lc)
    requires w <= u && LcIn(l, |w|)
    ensures Value(w, l) == Value(u, l)
  {
    hide Mul, Add, Sub, Neg;
    assert forall x :: In(x, |w|) ==> V(w, x) == V(u, x);
  }

  class CS {
    var aux: Assignment
    var constraints: seq<Constraint>

    constructor ()
      ensures Valid() && aux == [] && constraints == []
    {
      aux, constraints := [], [];
    }

    ghost predicate Valid()
      reads this
    {
      forall i :: 0 <= i < |constraints| ==> ConstraintIn(constraints[i], |aux|)
    }

    /** The system has only grown since it held a and s. */
    ghost predicate Grown(a: Assignment, s: seq<Constraint>)
      reads this
    {
      && Valid() && a <= aux
      && (forall x {:trigger V(aux, x)} :: In(x, |a|) ==> V(aux, x) == V(a, x))
      && forall w {:trigger Sat(w, constraints)} :: Sat(w, constraints) ==> Sat(w, s)
    }

    /** The prover's values satisfy everything. */
    ghost predicate Honest()
      reads this
    {
      Sat(aux, constraints)
    }

    method Alloc(v: Fe) returns (x: Wire)
      requires Valid()
      modifies this`aux
      ensures Grown(old(aux), constraints) && aux == old(aux) + [v]
      ensures x == Aux(|old(aux)|) && V(aux, x) == v
      ensures old(Honest()) ==> Honest()
    {
      hide Holds, ConstraintIn;
      ghost var before := aux;
      x := Aux(|aux|);
      aux := aux + [v];
      forall i | 0 <= i < |constraints|
        ensures ConstraintIn(constraints[i], |aux|) && Holds(before, constraints[i]) == Holds(aux, constraints[i])
      {
        InMore(constraints[i], |before|, |aux|);
        HoldsKept(before, aux, constraints[i]);
      }
    }

    method Enforce(a: Lc, b: Lc, c: Lc)
      requires Valid() && LcIn(a, |aux|) && LcIn(b, |aux|) && LcIn(c, |aux|)
      modifies this`constraints
      ensures Grown(aux, old(constraints))
      ensures forall w {:trigger Sat(w, constraints)} :: Sat(w, constraints) <==> Sat(w, old(constraints)) && Holds(w, Constraint(a, b, c))
    {
      hide Holds, LcIn;
      ghost var before := constraints;
      constraints := constraints + [Constraint(a, b, c)];
      forall w ensures Sat(w, constraints) <==> Sat(w, before) && Holds(w, Constraint(a, b, c)) {
        SatSnoc(w, before, Constraint(a, b, c));
      }
    }
  }

  lemma InMore(k: Constraint, m: nat, n: nat)
    requires ConstraintIn(k, m) && m <= n
    ensures ConstraintIn(k, n)
  {
  }

  lemma SatSnoc(w: Assignment, s: seq<Constraint>, k: Constraint)
    ensures Sat(w, s + [k]) <==> Sat(w, s) && Holds(w, k)
  {
    hide Holds;
    var t := s + [k];
    assert t[|s|] == k;
    if Sat(w, t) {
      forall i | 0 <= i < |s| ensures Holds(w, s[i]) { assert Holds(w, t[i]); }
    }
  }

  /** What a longer assignment satisfies, the shorter one already did. */
  lemma HonestBefore(a: Assignment, u: Assignment, s: seq<Constraint>)
    requires a <= u && forall i :: 0 <= i < |s| ==> ConstraintIn(s[i], |a|)
    ensures Sat(u, s) <==> Sat(a, s)
  {
    hide Holds, ConstraintIn;
    forall i | 0 <= i < |s| ensures Holds(a, s[i]) == Holds(u, s[i]) { HoldsKept(a, u, s[i]); }
  }

  // ----------------------------------------------------------------- selections

  predicate IsBit(x: Fe) {
    x == 0 || x == 1
  }

  lemma SelectForced(a: Fe, b: Fe, cond: Fe, c: Fe)
    requires IsBit(cond)
    ensures Mul(Sub(a, b), cond) == Sub(c, b) <==> c == if cond == 1 then a else b
  {
    MulOne(Sub(a, b));
    hide Mul;
  }

  /** cond ? a : b. */
  method ConditionallySelect(cs: CS, a: Wire, b: Wire, cond: Wire) returns (c: Wire)
    requires cs.Valid() && In(a, |cs.aux|) && In(b, |cs.aux|) && In(cond, |cs.aux|)
    modifies cs
    ensures cs.Grown(old(cs.aux), old(cs.constraints)) && In(c, |cs.aux|)
    ensures forall w {:trigger Sat(w, cs.constraints)} :: Sat(w, cs.constraints) && IsBit(V(w, cond)) ==>
              V(w, c) == if V(w, cond) == 1 then V(w, a) else V(w, b)
    ensures V(cs.aux, c) == if V(cs.aux, cond) == 1 then V(cs.aux, a) else V(cs.aux, b)
    ensures old(cs.Honest()) && IsBit(V(cs.aux, cond)) ==> cs.Honest()
  {
    hide Mul, Add, Sub, Sat;
    c := cs.Alloc(if V(cs.aux, cond) == 1 then V(cs.aux, a) else V(cs.aux, b));
    cs.Enforce(L2(Pos(a), Minus(b)), L1(Pos(cond)), L2(Pos(c), Minus(b)));
    forall w | IsBit(V(w, cond))
      ensures Holds(w, Constraint(L2(Pos(a), Minus(b)), L1(Pos(cond)), L2(Pos(c), Minus(b))))
         <==> V(w, c) == if V(w, cond) == 1 then V(w, a) else V(w, b)
    {
      SelectForced(V(w, a), V(w, b), V(w, cond), V(w, c));
    }
  }

  lemma ZeroOrNum(a: Fe, cond: Fe, c: Fe)
    requires IsBit(cond)
    ensures Mul(a, Sub(1, cond)) == c <==> c == if cond == 1 then 0 else a
  {
    MulOne(a);
    hide Mul;
  }

  /** cond ? 0 : a. */
  method SelectZeroOrNum2(cs: CS, a: Wire, cond: Wire) returns (c: Wire)
    requires cs.Valid() && In(a, |cs.aux|) && In(cond, |cs.aux|)
    modifies cs
    ensures cs.Grown(old(cs.aux), old(cs.constraints)) && In(c, |cs.aux|)
    ensures forall w {:trigger Sat(w, cs.constraints)} :: Sat(w, cs.constraints) && IsBit(V(w, cond)) ==>
              V(w, c) == if V(w, cond) == 1 then 0 else V(w, a)
    ensures old(cs.Honest()) && IsBit(V(cs.aux, cond)) ==> cs.Honest()
  {
    hide Mul, Add, Sub, Sat;
    c := cs.Alloc(if V(cs.aux, cond) == 1 then 0 else V(cs.aux, a));
    cs.Enforce(L1(Pos(a)), L2(Pos(One), Minus(cond)), L1(Pos(c)));
    forall w | IsBit(V(w, cond))
      ensures Holds(w, Constraint(L1(Pos(a)), L2(Pos(One), Minus(cond)), L1(Pos(c))))
         <==> V(w, c) == if V(w, cond) == 1 then 0 else V(w, a)
    {
      ZeroOrNum(V(w, a), V(w, cond), V(w, c));
    }
  }

  lemma NumOrZero(a: Fe, cond: Fe, c: Fe)
    requires IsBit(cond)
    ensures Mul(a, cond) == c <==> c == if cond == 1 then a else 0
  {
    MulOne(a);
    hide Mul;
  }

  /** cond ? a : 0. */
  method SelectNumOrZero(cs: CS, a: Wire, cond: Wire) returns (c: Wire)
    requires cs.Valid() && In(a, |cs.aux|) && In(cond, |cs.aux|)
    modifies cs
    ensures cs.Grown(old(cs.aux), old(cs.constraints)) && In(c, |cs.aux|)
    ensures forall w {:trigger Sat(w, cs.constraints)} :: Sat(w, cs.constraints) && IsBit(V(w, cond)) ==>
              V(w, c) == if V(w, cond) == 1 then V(w, a) else 0
    ensures old(cs.Honest()) && IsBit(V(cs.aux, cond)) ==> cs.Honest()
  {
    hide Mul, Add, Sub, Sat;
    c := cs.Alloc(if V(cs.aux, cond) == 1 then V(cs.aux, a) else 0);
    cs.Enforce(L1(Pos(a)), L1(Pos(cond)), L1(Pos(c)));
    forall w | IsBit(V(w, cond))
      ensures Holds(w, Constraint(L1(Pos(a)), L1(Pos(cond)), L1(Pos(c))))
         <==> V(w, c) == if V(w, cond) == 1 then V(w, a) else 0
    {
      NumOrZero(V(w, a), V(w, cond), V(w, c));
    }
  }

  lemma OneOrNum(a: Fe, cond: Fe, c: Fe)
    requires IsBit(cond)
    ensures Mul(Sub(1, a), cond) == Sub(c, a) <==> c == if cond == 1 then 1 else a
  {
    MulOne(Sub(1, a));
    hide Mul;
  }

  /** cond ? 1 : a. */
  method SelectOneOrNum2(cs: CS, a: Wire, cond: Wire) returns (c: Wire)
    requires cs.Valid() && In(a, |cs.aux|) && In(cond, |cs.aux|)
    modifies cs
    ensures cs.Grown(old(cs.aux), old(cs.constraints)) && In(c, |cs.aux|)
    ensures forall w {:trigger Sat(w, cs.constraints)} :: Sat(w, cs.constraints) && IsBit(V(w, cond)) ==>
              V(w, c) == if V(w, cond) == 1 then 1 else V(w, a)
    ensures V(cs.aux, c) == if V(cs.aux, cond) == 1 then 1 else V(cs.aux, a)
    ensures old(cs.Honest()) && IsBit(V(cs.aux, cond)) ==> cs.Honest()
  {
    hide Mul, Add, Sub, Sat;
    c := cs.Alloc(if V(cs.aux, cond) == 1 then 1 else V(cs.aux, a));
    cs.Enforce(L2(Pos(One), Minus(a)), L1(Pos(cond)), L2(Pos(c), Minus(a)));
    forall w | IsBit(V(w, cond))
      ensures Holds(w, Constraint(L2(Pos(One), Minus(a)), L1(Pos(cond)), L2(Pos(c), Minus(a))))
         <==> V(w, c) == if V(w, cond) == 1 then 1 else V(w, a)
    {
      OneOrNum(V(w, a), V(w, cond), V(w, c));
    }
  }

  lemma OneOrDiff(a: Fe, b: Fe, cond: Fe, c: Fe)
    requires IsBit(cond)
    ensures Mul(Add(Sub(1, a), b), cond) == Add(Sub(c, a), b) <==> c == if cond == 1 then 1 else Sub(a, b)
  {
    MulOne(Add(Sub(1, a), b));
    hide Mul;
  }

  /** cond ? 1 : a - b. */
  method SelectOneOrDiff2(cs: CS, a: Wire, b: Wire, cond: Wire) returns (c: Wire)
    requires cs.Valid() && In(a, |cs.aux|) && In(b, |cs.aux|) && In(cond, |cs.aux|)
    modifies cs
    ensures cs.Grown(old(cs.aux), old(cs.constraints)) && In(c, |cs.aux|)
    ensures forall w {:trigger Sat(w, cs.constraints)} :: Sat(w, cs.constraints) && IsBit(V(w, cond)) ==>
              V(w, c) == if V(w, cond) == 1 then 1 else Sub(V(w, a), V(w, b))
    ensures V(cs.aux, c) == if V(cs.aux, cond) == 1 then 1 else Sub(V(cs.aux, a), V(cs.aux, b))
    ensures old(cs.Honest()) && IsBit(V(cs.aux, cond)) ==> cs.Honest()
  {
    hide Mul, Add, Sub, Sat;
    c := cs.Alloc(if V(cs.aux, cond) == 1 then 1 else Sub(V(cs.aux, a), V(cs.aux, b)));
    cs.Enforce(L3(Pos(One), Minus(a), Pos(b)), L1(Pos(cond)), L3(Pos(c), Minus(a), Pos(b)));
    forall w | IsBit(V(w, cond))
      ensures Holds(w, Constraint(L3(Pos(One), Minus(a), Pos(b)), L1(Pos(cond)), L3(Pos(c), Minus(a), Pos(b))))
         <==> V(w, c) == if V(w, cond) == 1 then 1 else Sub(V(w, a), V(w, b))
    {
      OneOrDiff(V(w, a), V(w, b), V(w, cond), V(w, c));
    }
  }

  /** cond ? a : 1. */
  method SelectNumOrOne(cs: CS, a: Wire, cond: Wire) returns (c: Wire)
    requires cs.Valid() && In(a, |cs.aux|) && In(cond, |cs.aux|)
    modifies cs
    ensures cs.Grown(old(cs.aux), old(cs.constraints)) && In(c, |cs.aux|)
    ensures forall w {:trigger Sat(w, cs.constraints)} :: Sat(w, cs.constraints) && IsBit(V(w, cond)) ==>
              V(w, c) == if V(w, cond) == 1 then V(w, a) else 1
    ensures old(cs.Honest()) && IsBit(V(cs.aux, cond)) ==> cs.Honest()
  {
    hide Mul, Add, Sub, Sat;
    c := cs.Alloc(if V(cs.aux, cond) == 1 then V(cs.aux, a) else 1);
    cs.Enforce(L2(Pos(a), Minus(One)), L1(Pos(cond)), L2(Pos(c), Minus(One)));
    forall w | IsBit(V(w, cond))
      ensures Holds(w, Constraint(L2(Pos(a), Minus(One)), L1(Pos(cond)), L2(Pos(c), Minus(One))))
         <==> V(w, c) == if V(w, cond) == 1 then V(w, a) else 1
    {
      SelectForced(V(w, a), 1, V(w, cond), V(w, c));
    }
  }

  // ------------------------------------------------------------------- equality

  lemma EqualsForced(a: Fe, b: Fe, r: Fe, t: Fe)
    requires Mul(t, Sub(a, b)) == Sub(1, r) && Mul(r, Sub(a, b)) == 0
    ensures r == if a == b then 1 else 0
  {
    hide Mul;
    NoZeroDivisors(r, Sub(a, b));
    MulOne(t);
  }

  lemma EqualsHonest(a: Fe, b: Fe)
    ensures var r := if a == b then 1 else 0;
      var t := if a == b then 1 else Inv(Sub(a, b));
      Mul(t, Sub(a, b)) == Sub(1, r) && Mul(r, Sub(a, b)) == 0
  {
    hide Mul, Inv;
    MulOne(1);
    MulOne(Sub(a, b));
    if a != b { MulInv(Sub(a, b)); }
  }

  lemma BitForced(r: Fe)
    ensures Mul(Sub(1, r), r) == 0 <==> IsBit(r)
  {
    hide Mul;
    NoZeroDivisors(Sub(1, r), r);
  }

  /** An allocated bit: the wire carries 0 or 1. */
  method AllocBit(cs: CS, value: bool) returns (r: Wire)
    requires cs.Valid()
    modifies cs
    ensures cs.Grown(old(cs.aux), old(cs.constraints)) && In(r, |cs.aux|)
    ensures forall w {:trigger Sat(w, cs.constraints)} :: Sat(w, cs.constraints) ==> IsBit(V(w, r))
    ensures V(cs.aux, r) == if value then 1 else 0
    ensures old(cs.Honest()) ==> cs.Honest()
  {
    hide Mul, Add, Sub, Sat;
    r := cs.Alloc(if value then 1 else 0);
    cs.Enforce(L2(Pos(One), Minus(r)), L1(Pos(r)), L0);
    forall w ensures Holds(w, Constraint(L2(Pos(One), Minus(r)), L1(Pos(r)), L0)) <==> IsBit(V(w, r)) {
      BitForced(V(w, r));
    }
  }

  /** A bit that is 1 exactly when the two wires are equal. */
  method AllocNumEquals(cs: CS, a: Wire, b: Wire) returns (r: Wire)
    requires cs.Valid() && In(a, |cs.aux|) && In(b, |cs.aux|)
    modifies cs
    ensures cs.Grown(old(cs.aux), old(cs.constraints)) && In(r, |cs.aux|)
    ensures forall w {:trigger Sat(w, cs.constraints)} :: Sat(w, cs.constraints) ==>
              V(w, r) == if V(w, a) == V(w, b) then 1 else 0
    ensures V(cs.aux, r) == if V(cs.aux, a) == V(cs.aux, b) then 1 else 0
    ensures old(cs.Honest()) ==> cs.Honest()
  {
    hide Mul, Add, Sub, Sat, Inv;
    ghost var va, vb := V(cs.aux, a), V(cs.aux, b);
    r := AllocBit(cs, V(cs.aux, a) == V(cs.aux, b));
    var t := cs.Alloc(if V(cs.aux, a) == V(cs.aux, b) then 1 else Inv(Sub(V(cs.aux, a), V(cs.aux, b))));
    cs.Enforce(L1(Pos(t)), L2(Pos(a), Minus(b)), L2(Pos(One), Minus(r)));
    cs.Enforce(L1(Pos(r)), L2(Pos(a), Minus(b)), L0);
    EqualsHonest(va, vb);
    forall w | Sat(w, cs.constraints)
      ensures V(w, r) == if V(w, a) == V(w, b) then 1 else 0
    {
      EqualsForced(V(w, a), V(w, b), V(w, r), V(w, t));
    }
  }
}
