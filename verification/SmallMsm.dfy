/** Multi-scalar products of small unsigned scalars: plain accumulation, one bucket
    per scalar value, and windows of buckets.  Every one equals the naive sum.

    Buckets hold group elements here; that the coordinate formulas of the buckets
    compute the group law is the subject of module Xyzz. */
module SmallMsm {
  import opened PrimeGroup
  import opened Vectors
  import opened PowersOfTwo
  import opened Bits
  import opened Wrappers

  // ----------------------------------------------------------------- bucket sums

  /** The sum of (w + k) * b[k]. */
  function Weighted(b: seq<Pt>, w: int): Pt {
    if |b| == 0 then O else Plus(Smul(w, b[0]), Weighted(b[1..], w + 1))
  }

  function Total(b: seq<Pt>): Pt {
    if |b| == 0 then O else Plus(b[0], Total(b[1..]))
  }

  lemma {:induction false} WeightedShift(b: seq<Pt>, w: int)
    ensures Weighted(b, w + 1) == Plus(Weighted(b, w), Total(b))
  {
    hide Plus, Smul;
    if |b| == 0 {
      PlusO(O);
    } else {
      WeightedShift(b[1..], w + 1);
      SmulSucc(w, b[0]);
      PlusSwap(Smul(w, b[0]), b[0], Weighted(b[1..], w + 1), Total(b[1..]));
    }
  }

  /** A point added to bucket k counts w + k times. */
  lemma {:induction false} WeightedUpdate(b: seq<Pt>, w: int, k: nat, p: Pt)
    requires k < |b|
    ensures Weighted(b[k := Plus(b[k], p)], w) == Plus(Weighted(b, w), Smul(w + k, p))
  {
    hide Plus, Smul;
    var rest := Weighted(b[1..], w + 1);
    if k == 0 {
      assert b[k := Plus(b[k], p)][1..] == b[1..];
      SmulPlus(w, b[0], p);
      PlusAssoc(Smul(w, b[0]), Smul(w, p), rest);
      PlusComm(Smul(w, p), rest);
      PlusAssoc(Smul(w, b[0]), rest, Smul(w, p));
    } else {
      assert b[k := Plus(b[k], p)][1..] == b[1..][k - 1 := Plus(b[1..][k - 1], p)];
      WeightedUpdate(b[1..], w + 1, k - 1, p);
      PlusAssoc(Smul(w, b[0]), rest, Smul(w + k, p));
    }
  }

  lemma {:induction false} EmptyBuckets(b: seq<Pt>, w: int)
    requires forall i :: 0 <= i < |b| ==> b[i] == O
    ensures Weighted(b, w) == O
  {
    if |b| > 0 {
      EmptyBuckets(b[1..], w + 1);
      SmulO(w);
      PlusO(O);
    }
  }

  lemma MsmSnoc(s: seq<int>, g: seq<Pt>, i: nat)
    requires |s| == |g| && i < |s|
    ensures Msm(s[..i + 1], g[..i + 1]) == Plus(Msm(s[..i], g[..i]), Smul(s[i], g[i]))
  {
    hide Plus, Smul;
    assert s[..i + 1] == s[..i] + [s[i]] && g[..i + 1] == g[..i] + [g[i]];
    MsmConcat(s[..i], [s[i]], g[..i], [g[i]]);
    assert Msm([s[i]][1..], [g[i]][1..]) == O;
    PlusO(Smul(s[i], g[i]));
  }

  method NewBuckets(n: nat) returns (buckets: array<Pt>)
    ensures fresh(buckets) && buckets.Length == n
    ensures forall w :: Weighted(buckets[..], w) == O
  {
    buckets := new Pt[n](_ => O);
    forall w ensures Weighted(buckets[..], w) == O { EmptyBuckets(buckets[..], w); }
  }

  /** Running sums from the top bucket down: bucket k is counted k + 1 times. */
  method RunningSum(buckets: seq<Pt>, start: Pt) returns (result: Pt)
    ensures result == Plus(start, Weighted(buckets, 1))
  {
    hide Plus, Smul, Weighted, Total;
    result := start;
    var running := O;
    var j := |buckets|;
    NoBuckets(buckets);
    PlusO(start);
    while j > 0
      invariant 0 <= j <= |buckets|
      invariant running == Total(buckets[j..])
      invariant result == Plus(start, Weighted(buckets[j..], 1))
    {
      j := j - 1;
      RunningStep(buckets, j);
      PlusAssoc(start, Weighted(buckets[j + 1..], 1), Plus(running, buckets[j]));
      running := Plus(running, buckets[j]);
      result := Plus(result, running);
    }
    assert buckets[0..] == buckets;
  }

  lemma NoBuckets(b: seq<Pt>)
    ensures Total(b[|b|..]) == O && Weighted(b[|b|..], 1) == O
  {
  }

  lemma RunningStep(b: seq<Pt>, j: nat)
    requires j < |b|
    ensures Total(b[j..]) == Plus(Total(b[j + 1..]), b[j])
    ensures Weighted(b[j..], 1) == Plus(Weighted(b[j + 1..], 1), Plus(Total(b[j + 1..]), b[j]))
  {
    hide Plus, Smul;
    var rest := b[j + 1..];
    assert b[j..][1..] == rest;
    PlusComm(b[j], Total(rest));
    WeightedShift(rest, 1);
    SmulSmall(b[j]);
    PlusComm(b[j], Plus(Weighted(rest, 1), Total(rest)));
    PlusAssoc(Weighted(rest, 1), Total(rest), b[j]);
  }

  // --------------------------------------------------------------- serial kernels

  ghost predicate Below(s: seq<nat>, bound: nat) {
    forall i :: 0 <= i < |s| ==> s[i] < bound
  }

  method MsmBinarySerial(scalars: seq<nat>, bases: seq<Pt>) returns (acc: Pt)
    requires |scalars| == |bases| && Below(scalars, 2)
    ensures acc == Msm(scalars, bases)
  {
    hide Plus, Smul, Msm;
    acc := O;
    NoTerms(scalars, bases);
    for i := 0 to |scalars|
      invariant acc == Msm(scalars[..i], bases[..i])
    {
      MsmSnoc(scalars, bases, i);
      SmulSmall(bases[i]);
      PlusO(acc);
      if scalars[i] != 0 { acc := Plus(acc, bases[i]); }
    }
    assert scalars[..|scalars|] == scalars && bases[..|scalars|] == bases;
  }

  lemma NoTerms(s: seq<int>, g: seq<Pt>)
    requires |s| == |g|
    ensures Msm(s[..0], g[..0]) == O
  {
  }

  /** One bucket per scalar value. */
  method Msm10Serial(scalars: seq<nat>, bases: seq<Pt>, maxNumBits: nat) returns (result: Pt)
    requires |scalars| == |bases| && Below(scalars, Pow2(maxNumBits))
    ensures result == Msm(scalars, bases)
  {
    hide Plus, Smul, Msm, Pow2, Weighted;
    var buckets := NewBuckets(Pow2(maxNumBits));
    NoTerms(scalars, bases);
    for i := 0 to |scalars|
      invariant Weighted(buckets[..], 0) == Msm(scalars[..i], bases[..i])
    {
      MsmSnoc(scalars, bases, i);
      if scalars[i] != 0 {
        ghost var before := buckets[..];
        WeightedUpdate(before, 0, scalars[i], bases[i]);
        buckets[scalars[i]] := Plus(buckets[scalars[i]], bases[i]);
        assert buckets[..] == before[scalars[i] := Plus(before[scalars[i]], bases[i])];
      } else {
        SmulSmall(bases[i]);
        PlusO(Weighted(buckets[..], 0));
      }
    }
    assert scalars[..|scalars|] == scalars && bases[..|scalars|] == bases;
    SkipZeroBucket(buckets[..]);
    result := RunningSum(buckets[1..], O);
    PlusO(Weighted(buckets[1..], 1));
    assert buckets[1..] == buckets[..][1..];
  }

  lemma SkipZeroBucket(b: seq<Pt>)
    requires |b| > 0
    ensures Weighted(b, 0) == Weighted(b[1..], 1)
  {
    hide Plus, Smul;
    SmulSmall(b[0]);
    PlusO(Weighted(b[1..], 1));
  }

  // -------------------------------------------------------------------- windows

  /** The c-bit windows of the scalars at bit w. */
  function WindowDigits(s: seq<nat>, w: nat, c: nat): (d: seq<nat>)
    ensures |d| == |s|
  {
    seq(|s|, i requires 0 <= i < |s| => LowBits(Shr(s[i], w), c))
  }

  function Shifted(s: seq<nat>, w: nat): (d: seq<nat>)
    ensures |d| == |s|
  {
    seq(|s|, i requires 0 <= i < |s| => Shr(s[i], w))
  }

  /** A unit scalar has its one bit in the first window. */
  lemma UnitWindow(w: nat, c: nat)
    requires c >= 1
    ensures LowBits(Shr(1, w), c) == if w == 0 then 1 else 0
  {
    if w == 0 {
      LowBitsZero(c - 1);
      assert Shr(1, w) == 1 && LowBits(1, c) == 1 + 2 * LowBits(0, c - 1);
    } else {
      ShrZero(w - 1);
      LowBitsZero(c);
    }
  }

  lemma {:induction false} LowBitsZero(c: nat)
    ensures LowBits(0, c) == 0
  {
    if c > 0 { LowBitsZero(c - 1); }
  }

  lemma {:induction false} ShrZero(k: nat)
    ensures Shr(0, k) == 0
  {
    if k > 0 { ShrZero(k - 1); }
  }

  /** One window: unit scalars go to the result directly, and only in the first
      window; every other nonzero digit goes to its bucket. */
  method WindowSum(scalars: seq<nat>, bases: seq<Pt>, w: nat, c: nat) returns (result: Pt)
    requires |scalars| == |bases| && c >= 1
    ensures result == Msm(WindowDigits(scalars, w, c), bases)
  {
    hide Plus, Smul, Msm, Pow2, Weighted, LowBits, Shr;
    var res := O;
    var buckets := NewBuckets(Pow2(c) - 1);
    var digits := WindowDigits(scalars, w, c);
    NoTerms(digits, bases);
    PlusO(O);
    UnitWindow(w, c);
    for i := 0 to |scalars|
      invariant Plus(res, Weighted(buckets[..], 1)) == Msm(digits[..i], bases[..i])
    {
      ghost var before := buckets[..];
      MsmSnoc(digits, bases, i);
      SmulSmall(bases[i]);
      PlusO(Plus(res, Weighted(before, 1)));
      ZeroWindow(w, c);
      if scalars[i] != 0 {
        if scalars[i] == 1 {
          if w == 0 {
            MovePoint(res, Weighted(before, 1), bases[i]);
            res := Plus(res, bases[i]);
          }
        } else {
          var digit := LowBits(Shr(scalars[i], w), c);
          SplitAt(Shr(scalars[i], w), c);
          if digit != 0 {
            WeightedUpdate(before, 1, digit - 1, bases[i]);
            buckets[digit - 1] := Plus(buckets[digit - 1], bases[i]);
            assert buckets[..] == before[digit - 1 := Plus(before[digit - 1], bases[i])];
            PlusAssoc(res, Weighted(before, 1), Smul(digit, bases[i]));
          }
        }
      }
    }
    assert digits[..|scalars|] == digits && bases[..|scalars|] == bases;
    result := RunningSum(buckets[..], res);
  }

  lemma ZeroWindow(w: nat, c: nat)
    ensures LowBits(Shr(0, w), c) == 0
  {
    ShrZero(w);
    LowBitsZero(c);
  }

  lemma MovePoint(a: Pt, b: Pt, p: Pt)
    ensures Plus(Plus(a, p), b) == Plus(Plus(a, b), p)
  {
    hide *;
    PlusAssoc(a, p, b);
    PlusComm(p, b);
    PlusAssoc(a, b, p);
  }

  /** The scalars from bit w upward are the window at w plus 2^c times the rest. */
  lemma {:induction false} WindowStep(s: seq<nat>, g: seq<Pt>, w: nat, c: nat)
    requires |s| == |g|
    ensures Msm(Shifted(s, w), g)
         == Plus(Msm(WindowDigits(s, w, c), g), Smul(Pow2(c), Msm(Shifted(s, w + c), g)))
  {
    hide Plus, Smul, Pow2, Shr, LowBits;
    if |s| == 0 {
      SmulO(Pow2(c));
      PlusO(O);
    } else {
      WindowStep(s[1..], g[1..], w, c);
      assert Shifted(s, w)[1..] == Shifted(s[1..], w);
      assert WindowDigits(s, w, c)[1..] == WindowDigits(s[1..], w, c);
      assert Shifted(s, w + c)[1..] == Shifted(s[1..], w + c);
      var low, high := LowBits(Shr(s[0], w), c), Shr(s[0], w + c);
      SplitAt(Shr(s[0], w), c);
      ShrAdd(s[0], w, c);
      SmulAdd(low, Pow2(c) * high, g[0]);
      SmulMul(Pow2(c), high, g[0]);
      SmulPlus(Pow2(c), Smul(high, g[0]), Msm(Shifted(s[1..], w + c), g[1..]));
      PlusSwap(Smul(low, g[0]), Smul(Pow2(c), Smul(high, g[0])), Msm(WindowDigits(s[1..], w, c), g[1..]),
               Smul(Pow2(c), Msm(Shifted(s[1..], w + c), g[1..])));
    }
  }

  /** c doublings. */
  method DoubleTimes(p: Pt, c: nat) returns (total: Pt)
    ensures total == Smul(Pow2(c), p)
  {
    hide Plus, Smul;
    total := p;
    SmulSmall(p);
    for k := 0 to c
      invariant total == Smul(Pow2(k), p)
    {
      SmulAdd(Pow2(k), Pow2(k), p);
      total := Plus(total, total);
    }
  }

  function ComputeLn(a: nat): nat {
    if a == 0 then 0 else (NumBits(a) - 1) * 69 / 100
  }

  function WindowSize(n: nat, maxNumBits: nat): (c: nat)
    ensures c >= 2
  {
    if maxNumBits == 32 || maxNumBits == 64 then 8 else if n < 32 then 3 else ComputeLn(n) + 2
  }

  /** All windows, lowest first. */
  method WindowSums(scalars: seq<nat>, bases: seq<Pt>, maxNumBits: nat, c: nat) returns (sums: seq<Pt>)
    requires |scalars| == |bases| && c >= 1
    ensures (|sums| - 1) * c < maxNumBits <= |sums| * c || (maxNumBits == 0 && sums == [])
    ensures forall t :: 0 <= t < |sums| ==> sums[t] == Msm(WindowDigits(scalars, t * c, c), bases)
  {
    hide Msm, WindowDigits;
    sums := [];
    var start := 0;
    while start < maxNumBits
      invariant start == |sums| * c
      invariant |sums| > 0 ==> (|sums| - 1) * c < maxNumBits
      invariant forall t :: 0 <= t < |sums| ==> sums[t] == Msm(WindowDigits(scalars, t * c, c), bases)
      decreases maxNumBits - start
    {
      var sum := WindowSum(scalars, bases, start, c);
      sums := sums + [sum];
      start := start + c;
    }
  }

  lemma {:induction false} ShiftedOut(s: seq<nat>, g: seq<Pt>, w: nat)
    requires |s| == |g| && Below(s, Pow2(w))
    ensures Msm(Shifted(s, w), g) == O
  {
    if |s| > 0 {
      assert Shifted(s, w)[1..] == Shifted(s[1..], w);
      ShrSmall(s[0], w);
      ShiftedOut(s[1..], g[1..], w);
      SmulSmall(g[0]);
      PlusO(O);
    }
  }

  lemma BelowMono(s: seq<nat>, p: nat, q: nat)
    requires p <= q && Below(s, Pow2(p))
    ensures Below(s, Pow2(q))
  {
    Pow2Mono(p, q);
  }

  lemma ShiftedZero(s: seq<nat>)
    ensures Shifted(s, 0) == s
  {
  }

  method MsmSmallRestSerial(scalars: seq<nat>, bases: seq<Pt>, maxNumBits: nat) returns (result: Pt)
    requires |scalars| == |bases| && maxNumBits >= 1 && Below(scalars, Pow2(maxNumBits))
    ensures result == Msm(scalars, bases)
  {
    hide Plus, Smul, Msm, Shifted, WindowDigits, Pow2, WindowSize, Below;
    var c := WindowSize(|bases|, maxNumBits);
    var sums := WindowSums(scalars, bases, maxNumBits, c);
    var lowest := sums[0];
    var total := O;
    var t := |sums|;
    BelowMono(scalars, maxNumBits, t * c);
    ShiftedOut(scalars, bases, t * c);
    SmulO(Pow2(c));
    while t > 1
      invariant 1 <= t <= |sums|
      invariant total == if t == |sums| then O else Smul(Pow2(c), Msm(Shifted(scalars, t * c), bases))
    {
      t := t - 1;
      assert (t + 1) * c == t * c + c;
      WindowStep(scalars, bases, t * c, c);
      PlusComm(total, sums[t]);
      total := Plus(total, sums[t]);
      total := DoubleTimes(total, c);
    }
    WindowStep(scalars, bases, 0, c);
    ShiftedZero(scalars);
    result := Plus(lowest, total);
  }

  // -------------------------------------------------------------- chunks, dispatch

  /** Which serial kernel a chunk runs. */
  datatype Kernel = Binary | Ten(bits: nat) | Rest(bits: nat)

  ghost predicate Suits(k: Kernel, s: seq<nat>) {
    match k
    case Binary => Below(s, 2)
    case Ten(bits) => Below(s, Pow2(bits))
    case Rest(bits) => bits >= 1 && Below(s, Pow2(bits))
  }

  method RunSerial(k: Kernel, scalars: seq<nat>, bases: seq<Pt>) returns (r: Pt)
    requires |scalars| == |bases| && Suits(k, scalars)
    ensures r == Msm(scalars, bases)
  {
    match k
    case Binary => r := MsmBinarySerial(scalars, bases);
    case Ten(bits) => r := Msm10Serial(scalars, bases, bits);
    case Rest(bits) => r := MsmSmallRestSerial(scalars, bases, bits);
  }

  lemma SuitsPart(k: Kernel, s: seq<nat>, i: nat, j: nat)
    requires i <= j <= |s| && Suits(k, s)
    ensures Suits(k, s[i..j])
  {
  }

  /** The chunk results add up to the whole, whatever the chunk size. */
  method RunChunks(k: Kernel, scalars: seq<nat>, bases: seq<Pt>, chunk: nat) returns (sum: Pt)
    requires |scalars| == |bases| && Suits(k, scalars) && chunk >= 1
    ensures sum == Msm(scalars, bases)
  {
    hide Plus, Msm, Suits;
    sum := O;
    var i := 0;
    NoTerms(scalars, bases);
    while i < |scalars|
      invariant 0 <= i <= |scalars|
      invariant sum == Msm(scalars[..i], bases[..i])
    {
      var j := if i + chunk <= |scalars| then i + chunk else |scalars|;
      SuitsPart(k, scalars, i, j);
      var part := RunSerial(k, scalars[i..j], bases[i..j]);
      assert scalars[..j] == scalars[..i] + scalars[i..j] && bases[..j] == bases[..i] + bases[i..j];
      MsmConcat(scalars[..i], scalars[i..j], bases[..i], bases[i..j]);
      sum := Plus(sum, part);
      i := j;
    }
    assert scalars[..i] == scalars && bases[..i] == bases;
  }

  method RunParallel(k: Kernel, scalars: seq<nat>, bases: seq<Pt>, threads: nat) returns (r: Pt)
    requires |scalars| == |bases| && Suits(k, scalars) && threads >= 1
    ensures r == Msm(scalars, bases)
  {
    if |scalars| > threads {
      r := RunChunks(k, scalars, bases, |scalars| / threads);
    } else {
      r := RunSerial(k, scalars, bases);
    }
  }

  lemma {:induction false} AllZeroScalars(s: seq<nat>, g: seq<Pt>)
    requires |s| == |g| && Below(s, 1)
    ensures Msm(s, g) == O
  {
    if |s| > 0 {
      AllZeroScalars(s[1..], g[1..]);
      SmulSmall(g[0]);
      PlusO(O);
    }
  }

  /** The algorithm chosen by bit length; above 32 bits the foreign `msm_best`,
      taken at its contract. */
  method MsmSmallWithMaxNumBits(scalars: seq<nat>, bases: seq<Pt>, maxNumBits: nat, threads: nat) returns (r: Pt)
    requires |scalars| == |bases| && threads >= 1 && Below(scalars, Pow2(maxNumBits))
    ensures r == Msm(scalars, bases)
  {
    hide Msm, Plus;
    if maxNumBits == 0 {
      AllZeroScalars(scalars, bases);
      r := O;
    } else if maxNumBits == 1 {
      r := RunParallel(Binary, scalars, bases, threads);
    } else if maxNumBits <= 10 {
      r := RunParallel(Ten(maxNumBits), scalars, bases, threads);
    } else if maxNumBits <= 32 {
      r := RunParallel(Rest(maxNumBits), scalars, bases, threads);
    } else {
      r := Msm(scalars, bases);
    }
  }

  method Maximum(s: seq<nat>) returns (m: nat)
    requires |s| > 0
    ensures m in s && forall i :: 0 <= i < |s| ==> s[i] <= m
  {
    m := s[0];
    for i := 1 to |s|
      invariant m in s && forall k :: 0 <= k < i ==> s[k] <= m
    {
      if s[i] > m { m := s[i]; }
    }
  }

  /** The bit length is that of the largest scalar; no result is the panic on no scalars. */
  method MsmSmall(scalars: seq<nat>, bases: seq<Pt>, threads: nat) returns (r: Option<Pt>)
    requires |scalars| == |bases| && threads >= 1
    ensures r == if |scalars| == 0 then None else Some(Msm(scalars, bases))
  {
    hide Msm, NumBits, Pow2;
    if |scalars| == 0 {
      return None;
    }
    var largest := Maximum(scalars);
    NumBitsBound(largest, NumBits(largest));
    var sum := MsmSmallWithMaxNumBits(scalars, bases, NumBits(largest), threads);
    r := Some(sum);
  }
}
