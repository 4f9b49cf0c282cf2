/** Pedersen commitment keys: committing, and the operations that split, join,
    fold and scale a key. */
module Pedersen {
  import opened PrimeField
  import opened FieldLaws
  import opened PrimeGroup
  import opened Vectors

  datatype Key = Key(ck: seq<Pt>, h: Pt)

  function Commit(key: Key, v: Vec, r: Fe): Pt
    requires |v| <= |key.ck|
  {
    Plus(Msm(v, key.ck[..|v|]), Smul(r, key.h))
  }

  function Prefix(key: Key, n: nat): Key
    requires n <= |key.ck|
  {
    key.(ck := key.ck[..n])
  }

  /** Commits to `scalars` with the generators lo..hi, plus one extra generator. */
  function CommitRange(key: Key, lo: nat, hi: nat, scalars: Vec, extra: Key, extraScalar: Fe): Pt
    requires lo <= hi <= |key.ck| && |scalars| == hi - lo && |extra.ck| == 1
  {
    Plus(Msm(scalars, key.ck[lo..hi]), Smul(extraScalar, extra.ck[0]))
  }

  function Combine(a: Key, b: Key): Key {
    Key(a.ck + b.ck, a.h)
  }

  /** The left half weighted by w1 plus the right half weighted by w2. */
  function Fold(key: Key, half: nat, w1: Fe, w2: Fe): (folded: Key)
    requires |key.ck| == half + half
    ensures |folded.ck| == half
  {
    key.(ck := PAdd(PScale(w1, key.ck[..half]), PScale(w2, key.ck[half..])))
  }

  function Scale(key: Key, r: Fe): Key {
    key.(ck := PScale(r, key.ck))
  }

  function AsKey(c: seq<Pt>): Key {
    Key(c, O)
  }

  // Commitments are additively homomorphic.

  lemma CommitAdd(key: Key, v: Vec, w: Vec, r: Fe, s: Fe)
    requires |v| == |w| <= |key.ck|
    ensures Commit(key, VAdd(v, w), Add(r, s)) == Plus(Commit(key, v, r), Commit(key, w, s))
  {
    hide Msm, Plus, Smul, Add, VAdd;
    var g := key.ck[..|v|];
    MsmAddScalars(v, w, g);
    SmulFAdd(r, s, key.h);
    PlusSwap(Msm(v, g), Msm(w, g), Smul(r, key.h), Smul(s, key.h));
  }

  lemma CommitScale(key: Key, k: Fe, v: Vec, r: Fe)
    requires |v| <= |key.ck|
    ensures Commit(key, VScale(k, v), Mul(k, r)) == Smul(k, Commit(key, v, r))
  {
    hide Msm, Plus, Smul, Mul, VScale;
    var g := key.ck[..|v|];
    MsmScaleScalars(k, v, g);
    SmulFMul(k, r, key.h);
    SmulPlus(k, Msm(v, g), Smul(r, key.h));
  }

  lemma CommitZeros(key: Key, n: nat)
    requires n <= |key.ck|
    ensures Commit(key, Zeros(n), 0) == O
  {
    MsmZeros(n, key.ck[..n]);
    PlusO(O);
  }

  // How far a commitment is from opening to a vector, and how folding moves that gap.

  function Gap(key: Key, comm: Pt, v: Vec, r: Fe): Pt
    requires |v| <= |key.ck|
  {
    Minus(comm, Commit(key, v, r))
  }

  lemma GapIsO(key: Key, comm: Pt, v: Vec, r: Fe)
    requires |v| <= |key.ck|
    ensures Gap(key, comm, v, r) == O <==> comm == Commit(key, v, r)
  {
    hide Minus, Commit;
    MinusIsO(comm, Commit(key, v, r));
  }

  lemma GapAdd(key: Key, c: Pt, v: Vec, r: Fe, d: Pt, w: Vec, s: Fe)
    requires |v| == |w| <= |key.ck|
    ensures Gap(key, Plus(c, d), VAdd(v, w), Add(r, s)) == Plus(Gap(key, c, v, r), Gap(key, d, w, s))
  {
    hide Minus, Commit, Plus, VAdd, Add;
    CommitAdd(key, v, w, r, s);
    MinusSwap(c, d, Commit(key, v, r), Commit(key, w, s));
  }

  lemma GapScale(key: Key, k: Fe, c: Pt, v: Vec, r: Fe)
    requires |v| <= |key.ck|
    ensures Gap(key, Smul(k, c), VScale(k, v), Mul(k, r)) == Smul(k, Gap(key, c, v, r))
  {
    hide Minus, Commit, Smul, VScale, Mul;
    CommitScale(key, k, v, r);
    SmulMinus(k, c, Commit(key, v, r));
  }

  // Nonzero scalars can be cancelled.

  lemma SmulIsO(k: Fe, a: Pt)
    ensures Smul(k, a) == O <==> k == 0 || a == O
  {
    hide *;
    SmulO(k);
    SmulSmall(a);
    if k != 0 {
      MulInv(k);
      SmulFMul(Inv(k), k, a);
      MulComm(k, Inv(k));
      SmulO(Inv(k));
    }
  }

  /** A line through the group that meets O twice is O everywhere. */
  lemma LineIsO(a: Pt, b: Pt, x: Fe, y: Fe)
    requires x != y && Plus(a, Smul(x, b)) == O && Plus(a, Smul(y, b)) == O
    ensures a == O && b == O
  {
    hide *;
    Cancel(a, Smul(x, b), Smul(y, b));
    SmulFSub(x, y, b);
    MinusIsO(Smul(x, b), Smul(y, b));
    SubIsZero(x, y);
    SmulIsO(Sub(x, y), b);
    SmulO(x);
    PlusO(a);
  }

  /** a + x b + x^2 c */
  function Parabola(a: Pt, b: Pt, c: Pt, x: Fe): Pt {
    Plus(Plus(a, Smul(x, b)), Smul(Mul(x, x), c))
  }

  lemma SquareGap(x: Fe, y: Fe)
    ensures Sub(Mul(x, x), Mul(y, y)) == Mul(Sub(x, y), Add(x, y))
  {
    hide *;
    Hom();
    ROf(x); ROf(y);
    SquareGapI(x, y);
  }

  lemma SquareGapI(x: int, y: int)
    ensures ISub(IMul(x, x), IMul(y, y)) == IMul(ISub(x, y), IAdd(x, y))
  {
  }


  lemma ParabolaDifference(a: Pt, b: Pt, c: Pt, x: Fe, y: Fe)
    ensures Minus(Parabola(a, b, c, x), Parabola(a, b, c, y)) == Smul(Sub(x, y), Plus(b, Smul(Add(x, y), c)))
  {
    hide Minus, Plus, Smul, Mul, Sub, Add;
    MinusSwap(Plus(a, Smul(x, b)), Smul(Mul(x, x), c), Plus(a, Smul(y, b)), Smul(Mul(y, y), c));
    MinusSwap(a, Smul(x, b), a, Smul(y, b));
    MinusIsO(a, a);
    PlusO(Minus(Smul(x, b), Smul(y, b)));
    SmulFSub(x, y, b);
    SmulFSub(Mul(x, x), Mul(y, y), c);
    SquareGap(x, y);
    SmulFMul(Sub(x, y), Add(x, y), c);
    SmulPlus(Sub(x, y), b, Smul(Add(x, y), c));
  }

  lemma ParabolaChord(a: Pt, b: Pt, c: Pt, x: Fe, y: Fe)
    requires x != y && Parabola(a, b, c, x) == O && Parabola(a, b, c, y) == O
    ensures Plus(b, Smul(Add(x, y), c)) == O
  {
    hide *;
    ParabolaDifference(a, b, c, x, y);
    MinusIsO(O, O);
    SubIsZero(x, y);
    SmulIsO(Sub(x, y), Plus(b, Smul(Add(x, y), c)));
  }

  /** A parabola through the group is O at three points exactly when it is O everywhere. */
  lemma ParabolaIsO(a: Pt, b: Pt, c: Pt, x: Fe, y: Fe, z: Fe)
    requires x != y && x != z && y != z
    ensures Parabola(a, b, c, x) == O && Parabola(a, b, c, y) == O && Parabola(a, b, c, z) == O
      <==> a == O && b == O && c == O
  {
    hide Plus, Smul, Mul, Add;
    forall k: Fe ensures Smul(k, O) == O { SmulO(k); }
    PlusO(a);
    if Parabola(a, b, c, x) == O && Parabola(a, b, c, y) == O && Parabola(a, b, c, z) == O {
      ParabolaChord(a, b, c, x, y);
      ParabolaChord(a, b, c, x, z);
      AddCancel(y, z, x);
      LineIsO(b, c, Add(x, y), Add(x, z));
    }
  }
}
