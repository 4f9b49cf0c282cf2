/** The GLV scalar split: an exact 256 by 256 bit product on 64-bit limbs, and
    the rounding that turns a scalar into two signed halves. */
module Glv {
  import opened PrimeField
  import opened FieldLaws
  import opened PrimeGroup
  import opened PowersOfTwo
  import opened Wnaf

  const W: nat := 0x1_0000_0000_0000_0000

  type Limb = x: int | 0 <= x < W witness 0

  /** The integer a limb string stands for, least significant limb first. */
  function LimbValue(s: seq<int>): int {
    if |s| == 0 then 0 else s[0] + W * LimbValue(s[1..])
  }

  function WPow(k: nat): (p: nat)
    ensures p >= 1
  {
    if k == 0 then 1 else W * WPow(k - 1)
  }

  lemma {:induction false} LimbUpdate(s: seq<int>, k: nat, x: int)
    requires k < |s|
    ensures LimbValue(s[k := x]) == LimbValue(s) + WPow(k) * (x - s[k])
  {
    if k == 0 {
      assert s[0 := x][1..] == s[1..];
    } else {
      assert s[k := x][1..] == s[1..][k - 1 := x];
      LimbUpdate(s[1..], k - 1, x);
      WTimes(WPow(k - 1), x - s[k]);
    }
  }

  lemma WTimes(p: int, d: int)
    ensures W * (p * d) == (W * p) * d
  {
  }

  lemma {:induction false} LimbSnoc(s: seq<int>, x: int)
    ensures LimbValue(s + [x]) == LimbValue(s) + WPow(|s|) * x
  {
    if |s| == 0 {
      assert (s + [x])[1..] == [];
    } else {
      assert (s + [x])[1..] == s[1..] + [x];
      LimbSnoc(s[1..], x);
      WTimes(WPow(|s| - 1), x);
    }
  }

  lemma {:induction false} WPowAdd(i: nat, j: nat)
    ensures WPow(i + j) == WPow(i) * WPow(j)
  {
    if i > 0 {
      WPowAdd(i - 1, j);
      WTimes(WPow(i - 1), WPow(j));
    }
  }

  lemma {:induction false} LimbBound(s: seq<int>)
    requires forall i :: 0 <= i < |s| ==> 0 <= s[i] < W
    ensures 0 <= LimbValue(s) < WPow(|s|)
  {
    if |s| > 0 { LimbBound(s[1..]); }
  }

  /** The low limb and the carry of acc + left * right + carry.  The sum fits the
      128-bit accumulator, so nothing is lost. */
  method AddMulCarry(acc: Limb, left: Limb, right: Limb, carry: Limb) returns (low: Limb, high: Limb)
    ensures low + W * high == acc + left * right + carry
    ensures acc + left * right + carry < W * W
  {
    ProductFits(left, right);
    var sum := acc + left * right + carry;
    DivideByW(sum);
    low, high := sum % W, sum / W;
  }

  lemma ProductFits(l: Limb, r: Limb)
    ensures 0 <= l * r <= (W - 1) * (W - 1)
  {
    MulMono(l, 0, r);
    MulMono(l, r, W - 1);
    MulMono(W - 1, l, W - 1);
  }

  lemma DivideByW(sum: int)
    requires 0 <= sum < W * W
    ensures 0 <= sum % W < W && 0 <= sum / W < W && sum == sum % W + W * (sum / W)
  {
  }

  /** Adds left * right, placed at limb i, to the result. */
  method MulRow(result: array<Limb>, i: nat, left: Limb, right: seq<Limb>)
    requires result.Length == 8 && i < 4 && |right| == 4
    requires forall k :: i + 4 <= k < 8 ==> result[k] == 0
    modifies result
    ensures LimbValue(result[..]) == old(LimbValue(result[..])) + WPow(i) * (left * LimbValue(right))
    ensures forall k :: i + 5 <= k < 8 ==> result[k] == 0
  {
    hide LimbValue, WPow;
    var carry: Limb := 0;
    LimbStart(right, WPow(i), left);
    for j := 0 to 4
      invariant forall k :: i + 4 <= k < 8 ==> result[k] == 0
      invariant LimbValue(result[..]) + WPow(i + j) * carry
             == old(LimbValue(result[..])) + WPow(i) * (left * LimbValue(right[..j]))
    {
      ghost var before := result[..];
      ghost var carry0 := carry;
      var limb, nextCarry := AddMulCarry(result[i + j], left, right[j], carry);
      result[i + j] := limb;
      assert result[..] == before[i + j := limb];
      LimbUpdate(before, i + j, limb);
      assert right[..j + 1] == right[..j] + [right[j]];
      LimbSnoc(right[..j], right[j]);
      RowStep(i, j, before[i + j], left, right[j], carry0, limb, nextCarry, LimbValue(right[..j]));
      carry := nextCarry;
    }
    assert right[..4] == right;
    ghost var before := result[..];
    result[i + 4] := carry;
    assert result[..] == before[i + 4 := carry];
    LimbUpdate(before, i + 4, carry);
  }

  lemma LimbStart(right: seq<Limb>, p: int, left: int)
    ensures LimbValue(right[..0]) == 0 && p * (left * 0) == 0
  {
  }

  lemma RowStep(i: nat, j: nat, acc: int, left: int, right: int, carry: int, limb: int, next: int, low: int)
    requires limb + W * next == acc + left * right + carry
    ensures WPow(i + j) * (limb - acc) + WPow(i + (j + 1)) * next - WPow(i + j) * carry
         == WPow(i) * (left * (low + WPow(j) * right)) - WPow(i) * (left * low)
  {
    WPowAdd(i, j);
    assert WPow(i + (j + 1)) == W * WPow(i + j);
    RowStepI(WPow(i), WPow(j), WPow(i + j), acc, left, right, carry, limb, next, low);
  }

  lemma RowStepI(p: int, q: int, pq: int, acc: int, left: int, right: int, carry: int, limb: int, next: int, low: int)
    requires pq == p * q && limb + W * next == acc + left * right + carry
    ensures pq * (limb - acc) + (W * pq) * next - pq * carry == p * (left * (low + q * right)) - p * (left * low)
  {
    assert pq * (limb - acc) + (W * pq) * next - pq * carry == pq * (limb - acc + W * next - carry);
    assert limb - acc + W * next - carry == left * right;
    Distribute(p, q, left, right, low);
  }

  lemma Distribute(p: int, q: int, left: int, right: int, low: int)
    ensures p * (left * (low + q * right)) - p * (left * low) == (p * q) * (left * right)
  {
  }

  /** The schoolbook product is exact. */
  method Mul512(left: seq<Limb>, right: seq<Limb>) returns (result: seq<Limb>)
    requires |left| == |right| == 4
    ensures |result| == 8
    ensures LimbValue(result) == LimbValue(left) * LimbValue(right)
  {
    hide LimbValue, WPow;
    var limbs := ZeroLimbs();
    EmptyLimbs(left, right);
    for i := 0 to 4
      invariant forall k :: i + 4 <= k < 8 ==> limbs[k] == 0
      invariant LimbValue(limbs[..]) == LimbValue(left[..i]) * LimbValue(right)
    {
      MulRow(limbs, i, left[i], right);
      assert left[..i + 1] == left[..i] + [left[i]];
      LimbSnoc(left[..i], left[i]);
      Regroup(LimbValue(left[..i]), WPow(i), left[i], LimbValue(right));
    }
    assert left[..4] == left;
    result := limbs[..];
  }

  lemma Regroup(l: int, p: int, x: int, r: int)
    ensures (l + p * x) * r == l * r + p * (x * r)
  {
  }

  lemma EmptyLimbs(left: seq<Limb>, right: seq<Limb>)
    ensures LimbValue(left[..0]) == 0 && 0 * LimbValue(right) == 0
  {
  }

  method ZeroLimbs() returns (limbs: array<Limb>)
    ensures fresh(limbs) && limbs.Length == 8
    ensures forall k :: 0 <= k < 8 ==> limbs[k] == 0
    ensures LimbValue(limbs[..]) == 0
  {
    limbs := new Limb[8](i => 0);
    AllZeroLimbs(limbs[..]);
  }

  lemma {:induction false} AllZeroLimbs(s: seq<int>)
    requires forall i :: 0 <= i < |s| ==> s[i] == 0
    ensures LimbValue(s) == 0
  {
    if |s| > 0 { AllZeroLimbs(s[1..]); }
  }

  // ---------------------------------------------------------------- the split

  const GAMMA1: seq<Limb> := [0xd91d232ec7e0b3d7, 0x2, 0, 0]
  const GAMMA2: seq<Limb> := [0x5398fd0300ff6565, 0x4ccef014a773d2d2, 0x02, 0]
  const B1: seq<Limb> := [0x89d3256894d213e3, 0, 0, 0]
  const B2: seq<Limb> := [0x0be4e1541221250b, 0x6f4d8248eeb859fd, 0, 0]

  lemma {:induction false} LimbConcat(s: seq<int>, t: seq<int>)
    ensures LimbValue(s + t) == LimbValue(s) + WPow(|s|) * LimbValue(t)
  {
    if |s| == 0 {
      assert s + t == t;
    } else {
      assert (s + t)[1..] == s[1..] + t;
      LimbConcat(s[1..], t);
      WTimes(WPow(|s| - 1), LimbValue(t));
    }
  }

  /** The four limbs of a 256-bit value. */
  function ToLimbs(x: int): (s: seq<Limb>)
    requires 0 <= x < WPow(4)
    ensures |s| == 4 && LimbValue(s) == x
  {
    FourLimbs(x);
    [x % W, x / W % W, x / W / W % W, x / W / W / W]
  }

  lemma FourLimbs(x: int)
    requires 0 <= x < WPow(4)
    ensures 0 <= x / W / W / W < W
    ensures LimbValue([x % W, x / W % W, x / W / W % W, x / W / W / W]) == x
  {
    hide LimbValue;
    assert WPow(4) == W * (W * (W * (W * 1))) by { assert WPow(3) == W * WPow(2) && WPow(2) == W * WPow(1) && WPow(1) == W * WPow(0); }
    var a := x / W;
    var b := a / W;
    var c := b / W;
    assert x == x % W + W * a && a == a % W + W * b && b == b % W + W * c;
    LimbValue4(x % W, a % W, b % W, c);
  }

  lemma LimbValue4(a: int, b: int, c: int, d: int)
    ensures LimbValue([a, b, c, d]) == a + W * (b + W * (c + W * d))
  {
    assert [a, b, c, d][1..] == [b, c, d];
    assert [b, c, d][1..] == [c, d];
    assert [c, d][1..] == [d];
    assert [d][1..] == [] && LimbValue([d][1..]) == 0;
    assert LimbValue([d]) == d;
    assert LimbValue([c, d]) == c + W * d;
    assert LimbValue([b, c, d]) == b + W * (c + W * d);
  }

  /** The top limb of a residue is nonzero exactly when the residue is 2^192 or more;
      such residues are read as negative. */
  predicate IsNegative(x: Fe) {
    x >= WPow(3)
  }

  function Magnitude(x: Fe): Fe {
    if IsNegative(x) then Neg(x) else x
  }

  method ScalarIsNegative(x: Fe) returns (negative: bool)
    requires P <= WPow(4)
    ensures negative == IsNegative(x)
  {
    hide LimbValue;
    var limbs := ToLimbs(x);
    negative := limbs[3] != 0;
    assert limbs == limbs[..3] + [limbs[3]];
    LimbSnoc(limbs[..3], limbs[3]);
    LimbBound(limbs[..3]);
    if limbs[3] != 0 { MulMono(WPow(3), 1, limbs[3]); }
  }

  /** What the low two limbs of a residue's magnitude stand for, with the sign put
      back, is the residue exactly when the magnitude is below 2^128. */
  lemma HalfExact(x: Fe, k: nat, high: nat)
    requires Magnitude(x) == k + WPow(2) * high && k < WPow(2)
    ensures R(Signed(k, IsNegative(x))) == x <==> Magnitude(x) < WPow(2)
  {
    hide WPow;
    if high == 0 {
      assert WPow(2) * high == 0;
      NegIsR(Magnitude(x));
      ROf(Magnitude(x));
      NegNeg(x);
    } else {
      MulMono(WPow(2), 1, high);
      assert Magnitude(x) >= WPow(2);
      assert k < P;
      NegIsR(k);
      ROf(k);
      NegNeg(x);
      NegNeg(k);
    }
  }

  lemma NegIsR(k: Fe)
    ensures R(0 - k) == Neg(k)
  {
    hide R;
    ROf(0);
    ROf(k);
    HomSub(0, k);
  }

  lemma NegNeg(x: Fe)
    ensures Neg(Neg(x)) == x
  {
  }

  /** The low half of a product: what is kept of it modulo 2^256. */
  predicate Halves(n: int, low: int, high: int) {
    n == low + WPow(4) * high && 0 <= low < WPow(4) && 0 <= high < WPow(4)
  }

  /** The quotients of one scalar and what the split computes from them. */
  ghost predicate Rounding(scalar: Fe, q1: Fe, q2: Fe) {
    exists l1, c1, l2, c2, m1, h1, m2, h2 ::
      && Halves(LimbValue(GAMMA2) * scalar, l1, c1) && Halves(c1 * LimbValue(B1), m1, h1) && q1 == R(m1)
      && Halves(LimbValue(GAMMA1) * scalar, l2, c2) && Halves(c2 * LimbValue(B2), m2, h2) && q2 == R(m2)
  }

  // --------------------------------------------------------------- size of the halves

  /** The modulus of the BN254 scalar field. */
  const BN254_R: int := 0x30644e72e131a029b85045b68181585d2833e84879b9709143e1f593f0000001

  /** The residue of ZETA times B1: the lattice of the split is spanned by (A1, B1) and
      (-B1, B2), whose determinant is the modulus. */
  const A1: int := 0x6f4d8248eeb859fc8211bbeb7d4f1128

  lemma ConstantValues()
    ensures LimbValue(GAMMA1) == 0x2d91d232ec7e0b3d7 && LimbValue(GAMMA2) == 0x24ccef014a773d2d25398fd0300ff6565
    ensures LimbValue(B1) == 0x89d3256894d213e3 && LimbValue(B2) == 0x6f4d8248eeb859fd0be4e1541221250b
    ensures WPow(4) == 0x10000000000000000000000000000000000000000000000000000000000000000
    ensures WPow(3) == 0x1000000000000000000000000000000000000000000000000 && WPow(2) == 0x100000000000000000000000000000000
  {
    hide LimbValue;
    LimbValue4(GAMMA1[0], GAMMA1[1], GAMMA1[2], GAMMA1[3]);
    LimbValue4(GAMMA2[0], GAMMA2[1], GAMMA2[2], GAMMA2[3]);
    LimbValue4(B1[0], B1[1], B1[2], B1[3]);
    LimbValue4(B2[0], B2[1], B2[2], B2[3]);
    assert WPow(1) == W * WPow(0) && WPow(2) == W * WPow(1) && WPow(3) == W * WPow(2) && WPow(4) == W * WPow(3);
  }

  /** What the constants are for: GAMMA_i is 2^256 B_i / r up to less than one half. */
  lemma GammasApproximate()
    ensures -BN254_R < 2 * (LimbValue(GAMMA1) * BN254_R - WPow(4) * LimbValue(B1)) < BN254_R
    ensures -BN254_R < 2 * (LimbValue(GAMMA2) * BN254_R - WPow(4) * LimbValue(B2)) < BN254_R
    ensures A1 * LimbValue(B2) + LimbValue(B1) * LimbValue(B1) == BN254_R
  {
    ConstantValues();
  }

  /** A quotient by such a constant: r c misses b s by less than 1.5 r below and 0.5 r above. */
  lemma QuotientError(gamma: int, b: int, m: int, r: int, s: int, low: int, c: int)
    requires 0 <= s < r <= m && -r < 2 * (gamma * r - m * b) < r
    requires gamma * s == low + m * c && 0 <= low < m
    ensures -3 * r < 2 * (r * c - b * s) < r
  {
    var (d, e) := (gamma * r - m * b, r * c - b * s);
    Scaled(gamma, b, m, r, s, low, c);
    var (me, sd, rl) := (m * e, s * d, r * low);
    assert -(s * r) <= 2 * sd <= s * r by { Between(s, 2 * d, r); Doubled(s, d); }
    assert 0 <= rl <= m * r by { MulMono(r, 0, low); MulMono(r, low, m); Swapped(r, m); }
    SmallerProduct(s, r, m);
    FromProduct(m, e, r, me);
  }

  lemma Doubled(k: int, x: int)
    ensures k * (2 * x) == 2 * (k * x)
  {
  }

  lemma Swapped(x: int, y: int)
    ensures x * y == y * x
  {
  }

  lemma FromProduct(m: int, e: int, r: int, me: int)
    requires m > 0 && me == m * e && -3 * (m * r) < 2 * me < m * r
    ensures -3 * r < 2 * e < r
  {
    Doubled(m, e);
    if 2 * e >= r {
      MulMono(m, r, 2 * e);
      assert false;
    }
    if 2 * e <= -3 * r {
      MulMono(m, 2 * e, -3 * r);
      Tripled(m, r);
      assert false;
    }
  }

  lemma Tripled(m: int, r: int)
    ensures m * (-3 * r) == -3 * (m * r)
  {
  }

  lemma Scaled(gamma: int, b: int, m: int, r: int, s: int, low: int, c: int)
    requires gamma * s == low + m * c
    ensures m * (r * c - b * s) == s * (gamma * r - m * b) - r * low
  {
    assert r * (m * c) == r * (gamma * s) - r * low by { assert m * c == gamma * s - low; }
    assert m * (r * c) == r * (m * c) && r * (gamma * s) == s * (gamma * r);
    assert m * (b * s) == s * (m * b);
    Spread(m, r * c, b * s);
    Spread(s, gamma * r, m * b);
  }

  lemma Spread(k: int, x: int, y: int)
    ensures k * (x - y) == k * x - k * y
  {
  }

  lemma Between(k: int, x: int, n: int)
    requires k >= 0 && -n < x < n
    ensures -(k * n) <= k * x <= k * n
  {
    MulMono(k, x, n);
    MulMono(k, -n, x);
    assert k * (-n) == -(k * n);
  }

  lemma SmallerProduct(s: int, r: int, m: int)
    requires 0 <= s < r <= m
    ensures s * r < m * r && r * m == m * r
  {
    MulMono(r, s, m - 1);
  }

  /** A multiple of r that is at most n times r. */
  lemma AtMost(r: int, k: int, n: int)
    requires r > 0 && r * k <= r * n
    ensures k <= n
  {
    OneMore(r, n);
    if k >= n + 1 { MulMono(r, n + 1, k); }
  }

  lemma OneMore(r: int, n: int)
    ensures r * (n + 1) == r * n + r
  {
  }

  lemma QuotientSize(r: int, b: int, s: int, c: int)
    requires 0 <= s < r && b >= 0 && -3 * r < 2 * (r * c - b * s) < r
    ensures -2 < c <= b
  {
    MulMono(b, 0, s);
    MulMono(b, s, r);
    Swapped(b, r);
    OneMore(r, b);
    if c > b {
      MulMono(r, b + 1, c);
      assert false;
    }
    if c <= -2 {
      MulMono(r, c, -2);
      assert false;
    }
  }

  /** A weighted error. */
  lemma Combined(r: int, w: int, e: int)
    requires w >= 0 && -3 * r < 2 * e < r
    ensures -3 * (r * w) <= 2 * (w * e) <= r * w
  {
    MulMono(w, 2 * e, r);
    MulMono(w, -3 * r, 2 * e);
    Doubled(w, e);
    Tripled(w, r);
    Swapped(w, r);
  }

  /** q2 - q1 before the reduction: r K = B2 e1 - B1 e2. */
  lemma SecondHalfSize(r: int, b1: int, b2: int, s: int, c1: int, c2: int)
    requires r > 0 && b1 >= 0 && b2 >= 0
    requires -3 * r < 2 * (r * c2 - b1 * s) < r && -3 * r < 2 * (r * c1 - b2 * s) < r
    ensures -(3 * b2 + b1) <= 2 * (c2 * b2 - c1 * b1) <= b2 + 3 * b1
  {
    var (e1, e2) := (r * c2 - b1 * s, r * c1 - b2 * s);
    Combined(r, b2, e1);
    Combined(r, b1, e2);
    assert r * (c2 * b2 - c1 * b1) == b2 * e1 - b1 * e2 by { CrossOut(r, b1, b2, s, c1, c2); }
    var K := c2 * b2 - c1 * b1;
    Doubled(r, K);
    assert r * (2 * K) <= r * (b2 + 3 * b1) by { SumOfTwo(r, b2, b1, 1, 3); }
    AtMost(r, 2 * K, b2 + 3 * b1);
    assert r * (-(2 * K)) <= r * (3 * b2 + b1) by { SumOfTwo(r, b2, b1, 3, 1); Negated(r, 2 * K); }
    AtMost(r, -(2 * K), 3 * b2 + b1);
  }

  lemma CrossOut(r: int, b1: int, b2: int, s: int, c1: int, c2: int)
    ensures r * (c2 * b2 - c1 * b1) == b2 * (r * c2 - b1 * s) - b1 * (r * c1 - b2 * s)
  {
    Spread(r, c2 * b2, c1 * b1);
    Spread(b2, r * c2, b1 * s);
    Spread(b1, r * c1, b2 * s);
    assert r * (c2 * b2) == b2 * (r * c2) && r * (c1 * b1) == b1 * (r * c1) && b2 * (b1 * s) == b1 * (b2 * s);
  }

  lemma SumOfTwo(r: int, x: int, y: int, m: int, n: int)
    ensures r * (m * x + n * y) == m * (r * x) + n * (r * y)
  {
    assert r * (m * x) == m * (r * x) && r * (n * y) == n * (r * y);
  }

  lemma Negated(r: int, x: int)
    ensures r * (-x) == -(r * x)
  {
  }

  /** s - c2 B1 - c1 A1 before the reduction, with the determinant r. */
  lemma FirstHalfSize(r: int, a1: int, b1: int, b2: int, s: int, c1: int, c2: int)
    requires r > 0 && a1 >= 0 && b1 >= 0 && a1 * b2 + b1 * b1 == r
    requires -3 * r < 2 * (r * c2 - b1 * s) < r && -3 * r < 2 * (r * c1 - b2 * s) < r
    ensures -(b1 + a1) <= 2 * (s - c2 * b1 - c1 * a1) <= 3 * (b1 + a1)
  {
    var (e1, e2) := (r * c2 - b1 * s, r * c1 - b2 * s);
    Combined(r, b1, e1);
    Combined(r, a1, e2);
    var N := s - c2 * b1 - c1 * a1;
    assert r * N == -(b1 * e1) - a1 * e2 by { CancelScalar(r, a1, b1, b2, s, c1, c2); }
    Doubled(r, N);
    assert r * (2 * N) <= r * (3 * (b1 + a1)) by { SumOfTwo(r, b1, a1, 3, 3); }
    AtMost(r, 2 * N, 3 * (b1 + a1));
    assert r * (-(2 * N)) <= r * (b1 + a1) by { SumOfTwo(r, b1, a1, 1, 1); Negated(r, 2 * N); }
    AtMost(r, -(2 * N), b1 + a1);
  }

  lemma SplitSquare(a: int, x: int, y: int, s: int)
    ensures (a * x + y * y) * s == a * (x * s) + y * (y * s)
  {
    assert (a * x) * s == a * (x * s) && (y * y) * s == y * (y * s);
  }

  lemma CancelScalar(r: int, a1: int, b1: int, b2: int, s: int, c1: int, c2: int)
    requires a1 * b2 + b1 * b1 == r
    ensures r * (s - c2 * b1 - c1 * a1) == -(b1 * (r * c2 - b1 * s)) - a1 * (r * c1 - b2 * s)
  {
    Spread(r, s - c2 * b1, c1 * a1);
    Spread(r, s, c2 * b1);
    Spread(b1, r * c2, b1 * s);
    Spread(a1, r * c1, b2 * s);
    assert r * (c2 * b1) == b1 * (r * c2) && r * (c1 * a1) == a1 * (r * c1);
    SplitSquare(a1, b2, b1, s);
  }

  lemma ScaledCombination(b: Fe, c: Fe, d: Fe, e: Fe, z: Fe)
    ensures Mul(Sub(Mul(d, e), Mul(c, b)), z) == Sub(Mul(d, Mul(z, e)), Mul(c, Mul(z, b)))
  {
    hide *;
    Hom();
    ROf(b); ROf(c); ROf(d); ROf(e); ROf(z);
    ScaledCombinationI(b, c, d, e, z);
  }

  lemma ScaledCombinationI(b: int, c: int, d: int, e: int, z: int)
    ensures IMul(ISub(IMul(d, e), IMul(c, b)), z) == ISub(IMul(d, IMul(z, e)), IMul(c, IMul(z, b)))
  {
  }

  lemma Gather(a: Fe, b: Fe, c: Fe, d: Fe, s: Fe)
    ensures Add(s, Sub(Mul(d, Sub(0, b)), Mul(c, a))) == Sub(Sub(s, Mul(d, b)), Mul(c, a))
  {
    hide *;
    Hom();
    ROf(a); ROf(b); ROf(c); ROf(d); ROf(s); ROf(0);
    GatherI(a, b, c, d, s);
  }

  lemma GatherI(a: int, b: int, c: int, d: int, s: int)
    ensures IAdd(s, ISub(IMul(d, ISub(0, b)), IMul(c, a))) == ISub(ISub(s, IMul(d, b)), IMul(c, a))
  {
  }

  lemma DeterminantLaw(b: Fe, e: Fe, z: Fe)
    ensures Mul(b, Add(Mul(z, e), b)) == Add(Mul(Mul(z, b), e), Mul(b, b))
  {
    hide *;
    Hom();
    ROf(b); ROf(e); ROf(z);
    DeterminantLawI(b, e, z);
  }

  lemma DeterminantLawI(b: int, e: int, z: int)
    ensures IMul(b, IAdd(IMul(z, e), b)) == IAdd(IMul(IMul(z, b), e), IMul(b, b))
  {
  }

  /** A residue of an integer below 2^128 in absolute value has a magnitude below 2^128. */
  lemma SmallMagnitude(n: int)
    requires P == BN254_R && 0 - WPow(2) < n < WPow(2)
    ensures Magnitude(R(n)) < WPow(2)
  {
    ConstantValues();
    RSmall(n);
  }

  /** The field is BN254's and ZETA the root of one that the constants were made for. */
  predicate ZetaMatches() {
    P == BN254_R && Mul(ZETA, R(LimbValue(B1))) == A1
  }

  lemma NoOverflow(c: int, b: int, high: int, low: int, bound: int)
    requires Halves(c * b, low, high) && 0 <= c <= bound && b >= 0 && bound * b < WPow(4)
    ensures low == c * b
  {
    hide WPow;
    MulMono(b, c, bound);
    Swapped(b, c);
    Swapped(b, bound);
    if high >= 1 {
      MulMono(WPow(4), 1, high);
      assert false;
    }
  }

  /** For every scalar of BN254 and its two quotients: the second half is the residue of an
      integer below 2^128, and so is the first when ZETA is the endomorphism's root. */
  lemma HalvesAreSmall(scalar: Fe, l1: int, c1: int, l2: int, c2: int)
    requires P == BN254_R
    requires Halves(LimbValue(GAMMA2) * scalar, l1, c1) && Halves(LimbValue(GAMMA1) * scalar, l2, c2)
    ensures 0 <= c1 <= LimbValue(B2) && 0 <= c2 <= LimbValue(B1)
    ensures var k2 := R(c2 * LimbValue(B2) - c1 * LimbValue(B1));
      Magnitude(k2) < WPow(2) && (ZetaMatches() ==> Magnitude(Add(scalar, Mul(k2, ZETA))) < WPow(2))
  {
    hide *;
    var (b1, b2, r) := (LimbValue(B1), LimbValue(B2), BN254_R);
    ConstantValues();
    GammasApproximate();
    Modulus();
    HalvesIs(LimbValue(GAMMA1) * scalar, l2, c2);
    HalvesIs(LimbValue(GAMMA2) * scalar, l1, c1);
    QuotientError(LimbValue(GAMMA1), b1, WPow(4), r, scalar, l2, c2);
    QuotientError(LimbValue(GAMMA2), b2, WPow(4), r, scalar, l1, c1);
    QuotientSize(r, b1, scalar, c2);
    QuotientSize(r, b2, scalar, c1);
    SecondHalfSize(r, b1, b2, scalar, c1, c2);
    SmallMagnitude(c2 * b2 - c1 * b1);
    if ZetaMatches() {
      FirstHalfSize(r, A1, b1, b2, scalar, c1, c2);
      SmallMagnitude(scalar - c2 * b1 - c1 * A1);
      FirstHalfIs(scalar, c1, c2);
    }
  }

  lemma Modulus()
    requires P == BN254_R
    ensures BN254_R == 0x30644e72e131a029b85045b68181585d2833e84879b9709143e1f593f0000001
    ensures A1 == 0x6f4d8248eeb859fc8211bbeb7d4f1128
  {
  }

  lemma HalvesIs(n: int, low: int, high: int)
    requires Halves(n, low, high)
    ensures n == low + WPow(4) * high && 0 <= low < WPow(4) && 0 <= high < WPow(4)
  {
  }

  /** Nothing is lost of the two products, so their difference is that of the quotients. */
  lemma SecondHalfIs(c1: int, c2: int, m1: int, h1: int, m2: int, h2: int)
    requires 0 <= c1 <= LimbValue(B2) && 0 <= c2 <= LimbValue(B1)
    requires Halves(c1 * LimbValue(B1), m1, h1) && Halves(c2 * LimbValue(B2), m2, h2)
    ensures Sub(R(m2), R(m1)) == R(c2 * LimbValue(B2) - c1 * LimbValue(B1))
  {
    hide *;
    ConstantValues();
    NoOverflow(c1, LimbValue(B1), h1, m1, LimbValue(B2));
    NoOverflow(c2, LimbValue(B2), h2, m2, LimbValue(B1));
    HomSub(m2, m1);
  }

  /** ZETA sends B1 to A1, and so B2 to -B1. */
  lemma ZetaOnB2()
    requires ZetaMatches()
    ensures Mul(ZETA, R(LimbValue(B2))) == Sub(0, R(LimbValue(B1)))
  {
    hide LimbValue, Mul, Add, Sub, R;
    ConstantValues();
    var b1: Fe, b2: Fe, a1: Fe := LimbValue(B1), LimbValue(B2), A1;
    ROf(b1);
    ROf(b2);
    var t := Add(Mul(ZETA, b2), b1);
    DeterminantLaw(b1, b2, ZETA);
    MulIsProduct(a1, b2);
    MulIsProduct(b1, b1);
    HomAdd(A1 * b2, b1 * b1);
    GammasApproximate();
    RShift(0, 1);
    ROf(0);
    NoZeroDivisors(b1, t);
    SubFromSum(Mul(ZETA, b2), b1);
  }

  lemma SubFromSum(x: Fe, y: Fe)
    requires Add(x, y) == 0
    ensures x == Sub(0, y)
  {
  }

  /** The first half as the residue of s - c2 B1 - c1 A1. */
  lemma FirstHalfIs(scalar: Fe, c1: int, c2: int)
    requires ZetaMatches()
    ensures Add(scalar, Mul(R(c2 * LimbValue(B2) - c1 * LimbValue(B1)), ZETA))
         == R(scalar - c2 * LimbValue(B1) - c1 * A1)
  {
    hide LimbValue, Mul, Add, Sub, R;
    ConstantValues();
    ZetaOnB2();
    var b1: Fe, b2: Fe, a1: Fe := LimbValue(B1), LimbValue(B2), A1;
    ZetaOnB1();
    var (x1, x2) := (R(c1), R(c2));
    ROf(b1);
    ROf(b2);
    ROf(a1);
    ROf(scalar);
    HomMul(c2, b2);
    HomMul(c1, b1);
    HomSub(c2 * b2, c1 * b1);
    ScaledCombination(b1, x1, x2, b2, ZETA);
    Gather(a1, b1, x1, x2, scalar);
    HomMul(c2, b1);
    HomMul(c1, A1);
    HomSub(scalar, c2 * b1);
    HomSub(scalar - c2 * b1, c1 * A1);
  }

  lemma ZetaOnB1()
    requires ZetaMatches()
    ensures Mul(ZETA, R(LimbValue(B1))) == A1
  {
    hide LimbValue, Mul;
  }

  /** A 256-bit product and its two halves. */
  method SplitProduct(left: seq<Limb>, right: seq<Limb>) returns (low: seq<Limb>, high: seq<Limb>)
    requires |left| == |right| == 4
    ensures |low| == |high| == 4
    ensures Halves(LimbValue(left) * LimbValue(right), LimbValue(low), LimbValue(high))
  {
    hide LimbValue, WPow;
    var product := Mul512(left, right);
    low, high := product[..4], product[4..8];
    assert product == low + high;
    LimbConcat(low, high);
    LimbBound(low);
    LimbBound(high);
  }

  /** The low 128 bits of a magnitude. */
  method LowHalf(x: Fe) returns (k: nat, ghost high: nat)
    requires P <= WPow(4)
    ensures x == k + WPow(2) * high && k < WPow(2)
  {
    hide LimbValue;
    var limbs := ToLimbs(x);
    k := limbs[0] + W * limbs[1];
    LimbValue4(limbs[0], limbs[1], limbs[2], limbs[3]);
    assert limbs == [limbs[0], limbs[1], limbs[2], limbs[3]];
    high := limbs[2] + W * limbs[3];
    assert WPow(2) == W * (W * 1) by { assert WPow(1) == W * WPow(0); }
  }

  /** The split of a scalar: exact whenever both halves of k1 and k2 fit 128 bits. */
  method DecomposeBn256Scalar(scalar: Fe) returns (d: Split, ghost k1: Fe, ghost k2: Fe)
    requires P <= WPow(4)
    ensures exists q1, q2 :: Rounding(scalar, q1, q2) && k2 == Sub(q2, q1)
    ensures scalar == Sub(k1, Mul(k2, ZETA))
    ensures Fits(d) && d.neg1 == IsNegative(k1) && d.neg2 == IsNegative(k2)
    ensures R(Signed(d.k1, d.neg1)) == k1 <==> Magnitude(k1) < Pow2(128)
    ensures R(Signed(d.k2, d.neg2)) == k2 <==> Magnitude(k2) < Pow2(128)
    ensures Magnitude(k1) < Pow2(128) && Magnitude(k2) < Pow2(128) ==> Splits(d, scalar)
    ensures P == BN254_R ==> Magnitude(k2) < Pow2(128)
    ensures ZetaMatches() ==> Magnitude(k1) < Pow2(128) && Splits(d, scalar)
  {
    hide *;
    ConstantLengths();
    var input := ToLimbs(scalar);
    var l1, c1 := SplitProduct(GAMMA2, input);
    var l2, c2 := SplitProduct(GAMMA1, input);
    var m1, h1 := SplitProduct(c1, B1);
    var m2, h2 := SplitProduct(c2, B2);
    var q1 := R(LimbValue(m1));
    var q2 := R(LimbValue(m2));
    RoundingFrom(scalar, LimbValue(l1), LimbValue(c1), LimbValue(l2), LimbValue(c2), LimbValue(m1), LimbValue(h1),
                 LimbValue(m2), LimbValue(h2));
    var second := Sub(q2, q1);
    var first := Add(scalar, Mul(second, ZETA));
    k1, k2 := first, second;
    AddSub(scalar, Mul(second, ZETA));
    var neg1 := ScalarIsNegative(first);
    var neg2 := ScalarIsNegative(second);
    var firstMagnitude := if neg1 then Neg(first) else first;
    var secondMagnitude := if neg2 then Neg(second) else second;
    MagnitudeIs(first);
    MagnitudeIs(second);
    var half1, high1 := LowHalf(firstMagnitude);
    var half2, high2 := LowHalf(secondMagnitude);
    HalfExact(first, half1, high1);
    HalfExact(second, half2, high2);
    Width128();
    d := Split(half1, neg1, half2, neg2);
    SplitsFrom(d, scalar, k1, k2);
    if P == BN254_R {
      HalvesAreSmall(scalar, LimbValue(l1), LimbValue(c1), LimbValue(l2), LimbValue(c2));
      SecondHalfIs(LimbValue(c1), LimbValue(c2), LimbValue(m1), LimbValue(h1), LimbValue(m2), LimbValue(h2));
    }
    ZetaFixesModulus();
  }

  lemma ZetaFixesModulus()
    ensures ZetaMatches() ==> P == BN254_R
  {
    hide LimbValue, Mul, R;
  }

  /** Both generators of every pair, from two scalars: for the BN254 scalar field every
      split is exact, so nothing is asked of the scalars. */
  method BatchVartimeDoubleScalarMul(scalars: seq<Fe>, lefts: seq<Pt>, rights: seq<Pt>) returns (out: seq<Pt>)
    requires ZetaMatches() && |scalars| == 2 && |lefts| == |rights|
    ensures |out| == |lefts|
    ensures forall i :: 0 <= i < |out| ==> out[i] == Plus(Smul(scalars[0], lefts[i]), Smul(scalars[1], rights[i]))
  {
    hide Smul, Plus, Splits, ZetaMatches, Rounding, Fits, Magnitude, IsNegative, LimbValue;
    ZetaFixesModulus();
    ConstantValues();
    var first, k1, k2 := DecomposeBn256Scalar(scalars[0]);
    var second, j1, j2 := DecomposeBn256Scalar(scalars[1]);
    out := BatchDoubleScalarMulEndo([first, second], scalars, lefts, rights);
  }

  lemma ConstantLengths()
    ensures |GAMMA1| == |GAMMA2| == |B1| == |B2| == 4
  {
  }

  lemma MagnitudeIs(x: Fe)
    ensures Magnitude(x) == if IsNegative(x) then Neg(x) else x
  {
  }

  lemma SplitsFrom(d: Split, scalar: Fe, k1: Fe, k2: Fe)
    requires scalar == Sub(k1, Mul(k2, ZETA))
    ensures R(Signed(d.k1, d.neg1)) == k1 && R(Signed(d.k2, d.neg2)) == k2 ==> Splits(d, scalar)
    ensures d.k1 < Pow2(128) && d.k2 < Pow2(128) ==> Fits(d)
  {
  }

  lemma RoundingFrom(scalar: Fe, l1: int, c1: int, l2: int, c2: int, m1: int, h1: int, m2: int, h2: int)
    requires Halves(LimbValue(GAMMA2) * scalar, l1, c1) && Halves(c1 * LimbValue(B1), m1, h1)
    requires Halves(LimbValue(GAMMA1) * scalar, l2, c2) && Halves(c2 * LimbValue(B2), m2, h2)
    ensures Rounding(scalar, R(m1), R(m2))
  {
    hide LimbValue, Halves, R;
  }

  lemma Width128()
    ensures Pow2(128) == WPow(2)
  {
    assert Pow2(8) == 256 by { Pow2Eight(); }
    hide Pow2;
    Pow2Add(8, 8);
    assert Pow2(16) == 0x1_0000;
    Pow2Add(16, 16);
    assert Pow2(32) == 0x1_0000_0000;
    Pow2Add(32, 32);
    assert Pow2(64) == W;
    Pow2Add(64, 64);
    assert WPow(1) == W * WPow(0);
  }

  lemma Pow2Eight()
    ensures Pow2(8) == 256
  {
    assert Pow2(2) == 4;
    assert Pow2(4) == 16;
    assert Pow2(6) == 64;
  }
}
