/** Points as coefficients: a batch of points weighted by the powers of a challenge, and
    how batches at enough challenges give each point back. */
module PointExtraction {
  import opened PrimeField
  import opened FieldLaws
  import opened PrimeGroup
  import opened Vectors
  import opened Polynomials
  import opened Interpolation

  lemma {:induction false} GeometricScale(m: Fe, a: Fe, q: Fe, k: nat)
    ensures Geometric(Mul(m, a), q, k) == VScale(m, Geometric(a, q, k))
    decreases k
  {
    hide Mul;
    if k > 0 {
      MulAssoc(m, a, q);
      GeometricScale(m, Mul(a, q), q, k - 1);
    }
  }

  /** The commitments weighted by m, m q, m q^2, ... */
  lemma BatchScale(m: Fe, q: Fe, pts: seq<Pt>)
    ensures Msm(Geometric(m, q, |pts|), pts) == Smul(m, Msm(Geometric(1, q, |pts|), pts))
  {
    hide Mul, Msm, Smul, Geometric, VScale;
    MulOne(m);
    GeometricScale(m, 1, q, |pts|);
    MsmScaleScalars(m, Geometric(1, q, |pts|), pts);
  }

  function Batches(pts: seq<Pt>, qs: seq<Fe>): (b: seq<Pt>)
    ensures |b| == |qs|
  {
    seq(|qs|, k requires 0 <= k < |qs| => Msm(Geometric(1, qs[k], |pts|), pts))
  }

  /** s[0] times the powers of qs[0], plus s[1] times the powers of qs[1], ... */
  function Mix(s: Vec, qs: seq<Fe>, n: nat): (m: Vec)
    requires |s| == |qs|
    ensures |m| == n
  {
    if |s| == 0 then Zeros(n) else VAdd(VScale(s[0], Geometric(1, qs[0], n)), Mix(s[1..], qs[1..], n))
  }

  lemma {:induction false} MsmOfBatches(s: Vec, qs: seq<Fe>, pts: seq<Pt>)
    requires |s| == |qs|
    ensures Msm(s, Batches(pts, qs)) == Msm(Mix(s, qs, |pts|), pts)
  {
    hide Smul, Plus, Geometric, VAdd, VScale;
    var n := |pts|;
    if |s| == 0 {
      MsmZeros(n, pts);
    } else {
      MsmOfBatches(s[1..], qs[1..], pts);
      assert Batches(pts, qs)[1..] == Batches(pts, qs[1..]);
      MsmAddScalars(VScale(s[0], Geometric(1, qs[0], n)), Mix(s[1..], qs[1..], n), pts);
      MsmScaleScalars(s[0], Geometric(1, qs[0], n), pts);
    }
  }

  lemma {:induction false} GeometricAt(m: Fe, q: Fe, n: nat, i: nat)
    requires i < n
    ensures Geometric(m, q, n)[i] == Mul(m, Pow(q, i))
    decreases n
  {
    hide Mul;
    if i == 0 {
      MulOne(m);
    } else {
      GeometricAt(Mul(m, q), q, n - 1, i - 1);
      MulAssoc(m, q, Pow(q, i - 1));
    }
  }

  lemma {:induction false} MixAt(s: Vec, qs: seq<Fe>, n: nat, i: nat)
    requires |s| == |qs| && i < n
    ensures Mix(s, qs, n)[i] == Dot(s, ValuesAt(Unit(n, i), qs))
  {
    hide Mul, Add, Geometric, Eval, Unit;
    if |s| > 0 {
      MixAt(s[1..], qs[1..], n, i);
      GeometricAt(1, qs[0], n, i);
      MulOne(Pow(qs[0], i));
      EvalUnit(n, i, qs[0]);
      assert ValuesAt(Unit(n, i), qs)[1..] == ValuesAt(Unit(n, i), qs[1..]);
    }
  }

  lemma {:induction false} MsmUnit(n: nat, j: nat, pts: seq<Pt>)
    requires j < n == |pts|
    ensures Msm(Unit(n, j), pts) == pts[j]
  {
    hide Smul, Plus;
    SmulSmall(pts[0]);
    if j == 0 {
      assert Unit(n, 0)[1..] == Zeros(n - 1);
      MsmZeros(n - 1, pts[1..]);
      PlusO(pts[0]);
    } else {
      assert Unit(n, j)[1..] == Unit(n - 1, j - 1);
      MsmUnit(n - 1, j - 1, pts[1..]);
      PlusO(pts[j]);
    }
  }

  /** The extracting weights of distinct challenges give back each point of the batch. */
  lemma ExtractPoint(qs: seq<Fe>, pts: seq<Pt>, j: nat)
    requires j < |qs| == |pts| && Distinct(qs)
    ensures Msm(Extractor(qs, j), Batches(pts, qs)) == pts[j]
  {
    hide Mix, Extractor, Msm, ValuesAt, Dot, Batches;
    var (n, s) := (|qs|, Extractor(qs, j));
    MsmOfBatches(s, qs, pts);
    forall i | 0 <= i < n ensures Mix(s, qs, n)[i] == Unit(n, j)[i] {
      MixAt(s, qs, n, i);
      ReadsCoefficient(qs, Unit(n, i), j);
    }
    assert Mix(s, qs, n) == Unit(n, j);
    MsmUnit(n, j, pts);
  }
}
