/** Powers of two by doubling. */
module PowersOfTwo {

  function Pow2(k: nat): (n: nat)
    ensures n >= 1
  {
    if k == 0 then 1 else Pow2(k - 1) + Pow2(k - 1)
  }

  lemma Pow2Double(k: nat)
    ensures Pow2(k + 1) == Pow2(k) + Pow2(k)
  {
  }

  lemma {:induction false} Pow2Mono(p: nat, q: nat)
    requires p <= q
    ensures Pow2(p) <= Pow2(q)
  {
    if p < q { Pow2Mono(p, q - 1); }
  }

  lemma {:induction false} Pow2Add(a: nat, b: nat)
    ensures Pow2(a + b) == Pow2(a) * Pow2(b)
  {
    if a > 0 {
      Pow2Add(a - 1, b);
      Pow2Double(a - 1);
      Pow2Double(a + b - 1);
    }
  }

  function ToPow2(n: nat, p: nat): nat
    requires p >= 1
    decreases n - p
  {
    if p >= n then p else ToPow2(n, p + p)
  }

  function NextPowerOfTwo(n: nat): nat {
    ToPow2(n, 1)
  }

  lemma {:induction false} ToPow2Meaning(n: nat, k: nat) returns (j: nat)
    ensures ToPow2(n, Pow2(k)) == Pow2(j) && j >= k && Pow2(j) >= n
    ensures j > k ==> Pow2(j - 1) < n
    decreases n - Pow2(k)
  {
    if Pow2(k) >= n {
      j := k;
    } else {
      j := ToPow2Meaning(n, k + 1);
    }
  }

  /** The least power of two that is at least n. */
  lemma NextPowerOfTwoIsLeast(n: nat, j: nat)
    ensures exists i :: NextPowerOfTwo(n) == Pow2(i)
    ensures NextPowerOfTwo(n) >= n
    ensures Pow2(j) >= n ==> NextPowerOfTwo(n) <= Pow2(j)
  {
    assert Pow2(0) == 1;
    var i := ToPow2Meaning(n, 0);
    if Pow2(j) >= n {
      if j < i { Pow2Mono(j, i - 1); } else { Pow2Mono(i, j); }
    }
  }

  lemma NextPowerOfTwoTwice(n: nat)
    ensures NextPowerOfTwo(NextPowerOfTwo(n)) == NextPowerOfTwo(n)
  {
    assert Pow2(0) == 1;
    var i := ToPow2Meaning(n, 0);
    NextPowerOfTwoIsLeast(Pow2(i), i);
  }

  /** The position of the highest set bit. */
  function Log2(n: nat): (p: nat)
    requires n >= 1
    ensures Pow2(p) <= n < Pow2(p + 1)
  {
    if n == 1 then 0 else Log2(n / 2) + 1
  }

  lemma Log2Unique(p: nat, n: nat)
    requires Pow2(p) <= n < Pow2(p + 1)
    ensures n >= 1 && Log2(n) == p
  {
    var q := Log2(n);
    if q < p { Pow2Mono(q + 1, p); }
    if p < q { Pow2Mono(p + 1, q); }
  }

  lemma Log2OfPow2(k: nat)
    ensures Log2(Pow2(k)) == k
  {
    Log2Unique(k, Pow2(k));
  }

  predicate IsPow2(n: nat) {
    n >= 1 && Pow2(Log2(n)) == n
  }

  lemma HalfIsPow2(n: nat)
    requires n >= 1
    ensures Log2(n + n) == Log2(n) + 1 && (IsPow2(n + n) <==> IsPow2(n))
  {
    assert (n + n) / 2 == n;
  }

  lemma OddIsNotPow2(n: nat)
    requires n % 2 == 1 && IsPow2(n)
    ensures n == 1
  {
    if Log2(n) > 0 { Pow2Double(Log2(n) - 1); }
  }

  lemma Pow2OfLog2(n: nat)
    requires NextPowerOfTwo(n) == n
    ensures n >= 1 && Pow2(Log2(n)) == n
  {
    var i := ToPow2Meaning(n, 0);
    Log2OfPow2(i);
  }
}
