/** Vectors of field elements and of points: inner products, multi-scalar
    products, and the (bi)linearity laws every commitment argument rests on. */
module Vectors {
  import opened PrimeField
  import opened FieldLaws
  import opened PrimeGroup

  type Vec = seq<Fe>

  function VAdd(a: Vec, b: Vec): (c: Vec)
    requires |a| == |b|
    ensures |c| == |a|
  {
    seq(|a|, i requires 0 <= i < |a| => Add(a[i], b[i]))
  }

  function VScale(k: Fe, a: Vec): (c: Vec)
    ensures |c| == |a|
  {
    seq(|a|, i requires 0 <= i < |a| => Mul(k, a[i]))
  }

  function Zeros(n: nat): (c: Vec)
    ensures |c| == n
  {
    seq(n, i => 0)
  }

  /** Sum of the entries. */
  function Sum(a: Vec): Fe {
    if |a| == 0 then 0 else Add(a[0], Sum(a[1..]))
  }

  /** The inner product. */
  function Dot(a: Vec, b: Vec): Fe
    requires |a| == |b|
  {
    if |a| == 0 then 0 else Add(Mul(a[0], b[0]), Dot(a[1..], b[1..]))
  }

  function PAdd(g: seq<Pt>, h: seq<Pt>): (c: seq<Pt>)
    requires |g| == |h|
    ensures |c| == |g|
  {
    seq(|g|, i requires 0 <= i < |g| => Plus(g[i], h[i]))
  }

  function PScale(k: Fe, g: seq<Pt>): (c: seq<Pt>)
    ensures |c| == |g|
  {
    seq(|g|, i requires 0 <= i < |g| => Smul(k, g[i]))
  }

  /** The naive multi-scalar product: the sum of s[i] * g[i]. */
  function Msm(s: seq<int>, g: seq<Pt>): Pt
    requires |s| == |g|
  {
    if |s| == 0 then O else Plus(Smul(s[0], g[0]), Msm(s[1..], g[1..]))
  }

  // ------------------------------------------------------------- inner products

  lemma {:induction false} DotConcat(a: Vec, a': Vec, b: Vec, b': Vec)
    requires |a| == |b| && |a'| == |b'|
    ensures Dot(a + a', b + b') == Add(Dot(a, b), Dot(a', b'))
  {
    if |a| == 0 {
      assert a + a' == a' && b + b' == b';
      AddZero(Dot(a', b'));
    } else {
      assert (a + a')[1..] == a[1..] + a' && (b + b')[1..] == b[1..] + b';
      DotConcat(a[1..], a', b[1..], b');
      AddAssoc(Mul(a[0], b[0]), Dot(a[1..], b[1..]), Dot(a', b'));
    }
  }

  lemma {:induction false} DotComm(a: Vec, b: Vec)
    requires |a| == |b|
    ensures Dot(a, b) == Dot(b, a)
  {
    if |a| > 0 {
      MulComm(a[0], b[0]);
      DotComm(a[1..], b[1..]);
    }
  }

  lemma {:induction false} DotAddLeft(a: Vec, a': Vec, b: Vec)
    requires |a| == |a'| == |b|
    ensures Dot(VAdd(a, a'), b) == Add(Dot(a, b), Dot(a', b))
  {
    hide Add, Mul;
    if |a| == 0 {
      AddZero(0);
    } else {
      assert VAdd(a, a')[1..] == VAdd(a[1..], a'[1..]);
      DotAddLeft(a[1..], a'[1..], b[1..]);
      AddMul(a[0], a'[0], b[0]);
      AddSwap(Mul(a[0], b[0]), Mul(a'[0], b[0]), Dot(a[1..], b[1..]), Dot(a'[1..], b[1..]));
    }
  }

  lemma {:induction false} DotScaleLeft(k: Fe, a: Vec, b: Vec)
    requires |a| == |b|
    ensures Dot(VScale(k, a), b) == Mul(k, Dot(a, b))
  {
    hide Add, Mul;
    if |a| == 0 {
      MulOne(k);
    } else {
      assert VScale(k, a)[1..] == VScale(k, a[1..]);
      DotScaleLeft(k, a[1..], b[1..]);
      MulAssoc(k, a[0], b[0]);
      MulAdd(k, Mul(a[0], b[0]), Dot(a[1..], b[1..]));
    }
  }

  lemma DotAddRight(a: Vec, b: Vec, b': Vec)
    requires |a| == |b| == |b'|
    ensures Dot(a, VAdd(b, b')) == Add(Dot(a, b), Dot(a, b'))
  {
    hide Dot, Add, VAdd;
    DotComm(a, VAdd(b, b'));
    DotAddLeft(b, b', a);
    DotComm(b, a);
    DotComm(b', a);
  }

  lemma DotScaleRight(k: Fe, a: Vec, b: Vec)
    requires |a| == |b|
    ensures Dot(a, VScale(k, b)) == Mul(k, Dot(a, b))
  {
    hide Dot, Mul, VScale;
    DotComm(a, VScale(k, b));
    DotScaleLeft(k, b, a);
    DotComm(b, a);
  }

  lemma {:induction false} DotZeros(n: nat, b: Vec)
    requires |b| == n
    ensures Dot(Zeros(n), b) == 0
  {
    if n > 0 {
      assert Zeros(n)[1..] == Zeros(n - 1);
      DotZeros(n - 1, b[1..]);
      MulOne(b[0]);
    }
  }

  // ------------------------------------------------------ multi-scalar products

  lemma MsmCons(m: int, s: seq<int>, p: Pt, g: seq<Pt>)
    requires |s| == |g|
    ensures Msm([m] + s, [p] + g) == Plus(Smul(m, p), Msm(s, g))
  {
    assert ([m] + s)[1..] == s && ([p] + g)[1..] == g;
  }

  lemma {:induction false} MsmConcat(s: seq<int>, s': seq<int>, g: seq<Pt>, g': seq<Pt>)
    requires |s| == |g| && |s'| == |g'|
    ensures Msm(s + s', g + g') == Plus(Msm(s, g), Msm(s', g'))
  {
    hide Plus, Smul;
    if |s| == 0 {
      assert s + s' == s' && g + g' == g';
      PlusO(Msm(s', g'));
    } else {
      assert (s + s')[1..] == s[1..] + s' && (g + g')[1..] == g[1..] + g';
      MsmConcat(s[1..], s', g[1..], g');
      PlusAssoc(Smul(s[0], g[0]), Msm(s[1..], g[1..]), Msm(s', g'));
    }
  }

  lemma {:induction false} MsmAddScalars(s: Vec, t: Vec, g: seq<Pt>)
    requires |s| == |t| == |g|
    ensures Msm(VAdd(s, t), g) == Plus(Msm(s, g), Msm(t, g))
  {
    hide Plus, Smul, Add;
    if |s| == 0 {
      PlusO(O);
    } else {
      assert VAdd(s, t)[1..] == VAdd(s[1..], t[1..]);
      MsmAddScalars(s[1..], t[1..], g[1..]);
      SmulFAdd(s[0], t[0], g[0]);
      PlusSwap(Smul(s[0], g[0]), Smul(t[0], g[0]), Msm(s[1..], g[1..]), Msm(t[1..], g[1..]));
    }
  }

  lemma {:induction false} MsmScaleScalars(k: Fe, s: Vec, g: seq<Pt>)
    requires |s| == |g|
    ensures Msm(VScale(k, s), g) == Smul(k, Msm(s, g))
  {
    hide Plus, Smul, Mul;
    if |s| == 0 {
      SmulO(k);
    } else {
      assert VScale(k, s)[1..] == VScale(k, s[1..]);
      MsmScaleScalars(k, s[1..], g[1..]);
      SmulFMul(k, s[0], g[0]);
      SmulPlus(k, Smul(s[0], g[0]), Msm(s[1..], g[1..]));
    }
  }

  lemma {:induction false} MsmAddPoints(s: Vec, g: seq<Pt>, h: seq<Pt>)
    requires |s| == |g| == |h|
    ensures Msm(s, PAdd(g, h)) == Plus(Msm(s, g), Msm(s, h))
  {
    hide Plus, Smul;
    if |s| == 0 {
      PlusO(O);
    } else {
      assert PAdd(g, h)[1..] == PAdd(g[1..], h[1..]);
      MsmAddPoints(s[1..], g[1..], h[1..]);
      SmulPlus(s[0], g[0], h[0]);
      PlusSwap(Smul(s[0], g[0]), Smul(s[0], h[0]), Msm(s[1..], g[1..]), Msm(s[1..], h[1..]));
    }
  }

  lemma {:induction false} MsmScalePoints(k: Fe, s: Vec, g: seq<Pt>)
    requires |s| == |g|
    ensures Msm(s, PScale(k, g)) == Smul(k, Msm(s, g))
  {
    hide Plus, Smul;
    if |s| == 0 {
      SmulO(k);
    } else {
      assert PScale(k, g)[1..] == PScale(k, g[1..]);
      MsmScalePoints(k, s[1..], g[1..]);
      SmulFMul(s[0], k, g[0]);
      SmulFMul(k, s[0], g[0]);
      MulComm(k, s[0]);
      SmulPlus(k, Smul(s[0], g[0]), Msm(s[1..], g[1..]));
    }
  }

  lemma {:induction false} MsmZeros(n: nat, g: seq<Pt>)
    requires |g| == n
    ensures Msm(Zeros(n), g) == O
  {
    if n > 0 {
      assert Zeros(n)[1..] == Zeros(n - 1);
      MsmZeros(n - 1, g[1..]);
      PlusO(O);
    }
  }
}
