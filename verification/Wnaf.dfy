/** Signed-digit recoding of 128-bit scalars, the interleaved schedule over the four
    half-length components of a GLV split, and the split itself. */
module Wnaf {
  import opened PrimeField
  import opened PrimeGroup
  import opened Vectors
  import opened PowersOfTwo

  // ------------------------------------------------------------------- recoding

  /** The integer a digit string stands for, least significant digit first. */
  function Value(d: seq<int>): int {
    if |d| == 0 then 0 else d[0] + 2 * Value(d[1..])
  }

  predicate IsDigit(x: int) {
    x == 0 || x in {-7, -5, -3, -1, 1, 3, 5, 7}
  }

  /** Digits in range, and each nonzero digit followed by three zeros. */
  ghost predicate Sparse3(d: seq<int>) {
    && (forall i :: 0 <= i < |d| ==> IsDigit(d[i]))
    && forall i, j :: 0 <= i < j < |d| && j <= i + 3 && d[i] != 0 ==> d[j] == 0
  }

  predicate Odd(v: nat) {
    v % 2 == 1
  }

  /** The low four bits. */
  function Residue(v: nat): (r: nat)
    ensures r < 16
  {
    v % 16
  }

  ghost predicate Multiple(k: nat, v: nat) {
    exists q: nat :: v == k * q
  }

  /** The digits still to come continue the string: after a nonzero digit t places
      back, the rest is divisible by 2^(4-t). */
  ghost predicate Continues(d: seq<int>, rest: nat) {
    && (|d| >= 1 && d[|d| - 1] != 0 ==> Multiple(8, rest))
    && (|d| >= 2 && d[|d| - 2] != 0 ==> Multiple(4, rest))
    && (|d| >= 3 && d[|d| - 3] != 0 ==> Multiple(2, rest))
  }

  lemma {:induction false} ValueSnoc(d: seq<int>, x: int)
    ensures Value(d + [x]) == Value(d) + Pow2(|d|) * x
  {
    if |d| == 0 {
      assert (d + [x])[1..] == [];
    } else {
      assert (d + [x])[1..] == d[1..] + [x];
      ValueSnoc(d[1..], x);
      assert 2 * (Pow2(|d| - 1) * x) == Pow2(|d|) * x;
    }
  }

  lemma SplitRest(n: nat, x: int, l: int)
    ensures Pow2(n) * (x + 2 * l) == Pow2(n) * x + Pow2(n + 1) * l
  {
    Pow2Double(n);
    DoubleOut(Pow2(n), x, l);
  }

  lemma DoubleOut(p: int, x: int, l: int)
    ensures p * (x + 2 * l) == p * x + (p + p) * l
  {
  }

  /** The digit taken from an odd value: its residue modulo 16, made signed. */
  function DigitOf(v: nat): int {
    if Odd(v) then (if Residue(v) >= 8 then Residue(v) - 16 else Residue(v)) else 0
  }

  lemma OddIs(v: nat) returns (h: nat)
    ensures v == 2 * h + (if Odd(v) then 1 else 0)
  {
    h := v / 2;
  }

  lemma OddIntro(v: nat, h: nat, odd: bool)
    requires v == 2 * h + (if odd then 1 else 0)
    ensures Odd(v) == odd
  {
  }

  lemma ResidueIs(v: nat) returns (q: nat)
    ensures v == 16 * q + Residue(v)
  {
    q := v / 16;
  }

  lemma OddResidue(v: nat)
    ensures Odd(v) == Odd(Residue(v))
  {
    hide *;
    var q := ResidueIs(v);
    var h := OddIs(Residue(v));
    OddIntro(v, 8 * q + h, Odd(Residue(v)));
  }

  lemma OddSmall(r: nat)
    requires r < 16 && Odd(r)
    ensures r in {1, 3, 5, 7, 9, 11, 13, 15}
  {
  }

  /** Taking the digit off leaves a multiple of 16, or half of an even value. */
  lemma DigitFacts(v: nat) returns (s: nat)
    ensures IsDigit(DigitOf(v)) && (DigitOf(v) != 0 <==> Odd(v))
    ensures v - DigitOf(v) == if Odd(v) then 16 * s else 2 * s
    ensures v > 0 ==> (v - DigitOf(v)) / 2 < v
  {
    hide Odd, Residue;
    OddResidue(v);
    if Odd(v) {
      OddSmall(Residue(v));
      var q := ResidueIs(v);
      s := if Residue(v) >= 8 then q + 1 else q;
    } else {
      s := OddIs(v);
    }
  }

  lemma Pow2Sixteen(m: nat)
    requires m >= 4
    ensures Pow2(m) == 16 * Pow2(m - 4)
  {
    Pow2Double(m - 1);
    Pow2Double(m - 2);
    Pow2Double(m - 3);
    Pow2Double(m - 4);
  }

  /** Taking a digit off halves the power-of-two bound on what remains. */
  lemma HalvesBound(v: nat, m: nat)
    requires v <= Pow2(m)
    ensures m == 0 ==> v - DigitOf(v) == 0
    ensures m > 0 ==> (v - DigitOf(v)) / 2 <= Pow2(m - 1)
  {
    hide Odd, Residue;
    if m > 0 { Pow2Double(m - 1); }
    if Odd(v) {
      var q := ResidueIs(v);
      if m >= 4 {
        Pow2Sixteen(m);
        OddBelow(v, 8 * Pow2(m - 4));
        assert q < Pow2(m - 4);
      } else {
        assert Pow2(0) == 1 && Pow2(1) == 2 && Pow2(2) == 4 && Pow2(3) == 8;
        SmallOdd(v);
      }
    } else {
      var h := OddIs(v);
    }
  }

  lemma OddBelow(v: nat, h: nat)
    requires Odd(v) && v <= 2 * h
    ensures v < 2 * h
  {
  }

  lemma SmallOdd(v: nat)
    requires Odd(v) && v <= 8
    ensures v < 8 && Residue(v) == v
  {
  }

  lemma ContinuesStep(d: seq<int>, v: nat)
    requires Sparse3(d) && Continues(d, v)
    ensures v - DigitOf(v) >= 0
    ensures Sparse3(d + [DigitOf(v)]) && Continues(d + [DigitOf(v)], (v - DigitOf(v)) / 2)
  {
    hide *;
    var s := DigitFacts(v);
    SparseStep(d, v, DigitOf(v));
    RestStep(d, v, DigitOf(v), s);
  }

  /** A nonzero digit only follows three zeros. */
  lemma SparseStep(d: seq<int>, v: nat, x: int)
    requires Sparse3(d) && Continues(d, v) && IsDigit(x) && (x != 0 ==> Odd(v))
    ensures Sparse3(d + [x])
  {
    hide IsDigit, Continues, Odd;
    var e := d + [x];
    forall i, j | 0 <= i < j < |e| && j <= i + 3 && e[i] != 0
      ensures e[j] == 0
    {
      if j == |d| { EvenAfter(d, v, i); }
    }
  }

  /** What remains after a recent nonzero digit is even. */
  lemma EvenAfter(d: seq<int>, v: nat, i: nat)
    requires Continues(d, v) && |d| - 3 <= i < |d| && d[i] != 0
    ensures !Odd(v)
  {
    hide Odd;
    if i == |d| - 1 {
      var q: nat :| v == 8 * q;
      OddIntro(v, 4 * q, false);
    } else if i == |d| - 2 {
      var q: nat :| v == 4 * q;
      OddIntro(v, 2 * q, false);
    } else {
      var q: nat :| v == 2 * q;
      OddIntro(v, q, false);
    }
  }

  lemma RestStep(d: seq<int>, v: nat, x: int, s: nat)
    requires Continues(d, v) && (x != 0 <==> Odd(v))
    requires v - x == if Odd(v) then 16 * s else 2 * s
    ensures Continues(d + [x], (v - x) / 2)
  {
    hide Odd;
    var e := d + [x];
    var rest := (v - x) / 2;
    if x != 0 {
      assert rest == 8 * s;
      if |d| >= 1 && d[|d| - 1] != 0 { EvenAfter(d, v, |d| - 1); }
      if |d| >= 2 && d[|d| - 2] != 0 { EvenAfter(d, v, |d| - 2); }
    } else {
      assert rest == s;
      if |d| >= 1 && d[|d| - 1] != 0 {
        var q: nat :| v == 8 * q;
        assert rest == 4 * q;
      }
      if |d| >= 2 && d[|d| - 2] != 0 {
        var q: nat :| v == 4 * q;
        assert rest == 2 * q;
      }
    }
    assert e[|e| - 1] == x;
  }

  /** One step of the recoding on a 128-bit word: the digit, and the rest shifted right
      with the carry out of the word as its new top bit.  Neither assertion of the code
      can fail: there is no carry to lose, and a digit taken off never borrows. */
  method TakeDigit(scalar: nat) returns (digit: int, rest: nat)
    requires scalar < Pow2(128)
    ensures digit == DigitOf(scalar) && scalar - digit >= 0 && rest == (scalar - digit) / 2
    ensures scalar == digit + 2 * rest
  {
    hide Pow2, Odd, Residue;
    ghost var s := DigitFacts(scalar);
    ghost var l := if Odd(scalar) then 8 * s else s;
    var low, high := scalar, false;
    digit := 0;
    if Odd(low) {
      var residue: int := Residue(low);
      digit := if residue >= 8 then residue - 16 else residue;
      if digit < 0 {
        var sum := low - digit;
        var carry := sum >= Pow2(128);
        assert !(high && carry);
        low := if carry then sum - Pow2(128) else sum;
        high := high || carry;
      } else {
        var borrow := low < digit;
        assert !borrow;
        low := low - digit;
      }
    }
    Pow2Double(127);
    assert (if high then Pow2(128) else 0) + low == 2 * l;
    HalfWithTop(low, high, l, Pow2(127));
    rest := low / 2 + if high then Pow2(127) else 0;
  }

  lemma HalfWithTop(low: int, high: bool, l: int, p: int)
    requires (if high then p + p else 0) + low == 2 * l
    ensures low / 2 + (if high then p else 0) == l
  {
  }

  /** Recoding of a 128-bit scalar.  The carry bit is always clear between steps, so the
      loop runs until the word is zero. */
  method U128Wnaf(scalar: nat) returns (digits: seq<int>)
    requires scalar < Pow2(128)
    ensures Value(digits) == scalar
    ensures Sparse3(digits)
    ensures |digits| <= 129
  {
    hide Pow2, Value, Sparse3, Continues, IsDigit, DigitOf;
    var low: nat := scalar;
    digits := [];
    EmptyString(scalar);
    while low != 0
      invariant low < Pow2(128)
      invariant scalar == Value(digits) + Pow2(|digits|) * low
      invariant Sparse3(digits) && Continues(digits, low)
      invariant |digits| <= 129
      invariant if |digits| <= 128 then low <= Pow2(128 - |digits|) else low == 0
      decreases low
    {
      ghost var s := DigitFacts(low);
      HalvesBound(low, 128 - |digits|);
      TopBound(128 - |digits|);
      ContinuesStep(digits, low);
      var digit, rest := TakeDigit(low);
      ValueSnoc(digits, digit);
      SplitRest(|digits|, digit, rest);
      digits := digits + [digit];
      low := rest;
    }
    NothingLeft(Pow2(|digits|));
  }

  lemma NothingLeft(p: int)
    ensures p * 0 == 0
  {
  }

  lemma EmptyString(v: nat)
    ensures Value([]) == 0 && Sparse3([]) && Continues([], v) && Pow2(0) * v == v
  {
  }

  lemma TopBound(m: nat)
    requires m <= 128
    ensures m > 0 ==> Pow2(m - 1) <= Pow2(127)
    ensures Pow2(127) < Pow2(128) && Pow2(127) >= 16
  {
    if m > 0 { Pow2Mono(m - 1, 127); }
    Pow2Double(127);
    Pow2Mono(4, 127);
  }

  // ------------------------------------------------------------- the joint sums

  function Doubled(k: seq<int>): (r: seq<int>)
    ensures |r| == |k|
  {
    seq(|k|, c requires 0 <= c < |k| => k[c] + k[c])
  }

  lemma {:induction false} MsmDoubled(k: seq<int>, g: seq<Pt>)
    requires |k| == |g|
    ensures Msm(Doubled(k), g) == Plus(Msm(k, g), Msm(k, g))
  {
    hide Plus, Smul;
    if |k| == 0 {
      PlusO(O);
    } else {
      assert Doubled(k)[1..] == Doubled(k[1..]);
      MsmDoubled(k[1..], g[1..]);
      SmulAdd(k[0], k[0], g[0]);
      PlusSwap(Smul(k[0], g[0]), Smul(k[0], g[0]), Msm(k[1..], g[1..]), Msm(k[1..], g[1..]));
    }
  }

  /** Raising one scalar by x adds x times its point. */
  lemma {:induction false} MsmAddAt(k: seq<int>, c: nat, x: int, g: seq<Pt>)
    requires |k| == |g| && c < |k|
    ensures Msm(k[c := k[c] + x], g) == Plus(Msm(k, g), Smul(x, g[c]))
  {
    hide Plus, Smul;
    var rest := Msm(k[1..], g[1..]);
    if c == 0 {
      assert k[c := k[c] + x][1..] == k[1..];
      SmulAdd(k[0], x, g[0]);
      PlusAssoc(Smul(k[0], g[0]), Smul(x, g[0]), rest);
      PlusComm(Smul(x, g[0]), rest);
      PlusAssoc(Smul(k[0], g[0]), rest, Smul(x, g[0]));
    } else {
      assert k[c := k[c] + x][1..] == k[1..][c - 1 := k[1..][c - 1] + x];
      MsmAddAt(k[1..], c - 1, x, g[1..]);
      PlusAssoc(Smul(k[0], g[0]), rest, Smul(x, g[c]));
    }
  }

  lemma {:induction false} MsmAllZero(k: seq<int>, g: seq<Pt>)
    requires |k| == |g| && forall i :: 0 <= i < |k| ==> k[i] == 0
    ensures Msm(k, g) == O
  {
    if |k| > 0 {
      MsmAllZero(k[1..], g[1..]);
      PlusO(O);
    }
  }

  // ------------------------------------------------------- interleaved schedule

  function DigitAt(d: seq<int>, b: nat): int {
    if b < |d| then d[b] else 0
  }

  /** The value of the digits from position b upward. */
  function High(d: seq<int>, b: nat): int {
    if b < |d| then Value(d[b..]) else 0
  }

  lemma HighStep(d: seq<int>, b: nat)
    ensures High(d, b) == DigitAt(d, b) + (High(d, b + 1) + High(d, b + 1))
  {
    if b < |d| {
      assert d[b..][1..] == d[b + 1..];
      assert Value(d[b..]) == d[b] + 2 * Value(d[b + 1..]);
      if b + 1 == |d| { assert d[b + 1..] == []; assert Value(d[b + 1..]) == 0; }
    }
  }

  /** Scalars of all components while position b is being added: the components
      before c already hold their digit, the others are doubled only. */
  function Midway(digits: seq<seq<int>>, b: nat, c: nat): (k: seq<int>)
    ensures |k| == |digits|
  {
    seq(|digits|, i requires 0 <= i < |digits| =>
      if i < c then High(digits[i], b) else High(digits[i], b + 1) + High(digits[i], b + 1))
  }

  function Heads(digits: seq<seq<int>>, b: nat): (k: seq<int>)
    ensures |k| == |digits|
  {
    seq(|digits|, i requires 0 <= i < |digits| => High(digits[i], b))
  }

  function Values(digits: seq<seq<int>>): (k: seq<int>)
    ensures |k| == |digits|
  {
    seq(|digits|, i requires 0 <= i < |digits| => Value(digits[i]))
  }

  lemma HeadsEnds(digits: seq<seq<int>>, top: nat)
    requires forall c :: 0 <= c < |digits| ==> |digits[c]| <= top
    ensures Heads(digits, 0) == Values(digits)
    ensures forall c :: 0 <= c < |digits| ==> Heads(digits, top)[c] == 0
  {
    forall c | 0 <= c < |digits| ensures High(digits[c], 0) == Value(digits[c]) {
      assert digits[c][0..] == digits[c];
    }
  }

  lemma MidwayStep(digits: seq<seq<int>>, b: nat, c: nat)
    requires c < |digits|
    ensures Midway(digits, b, c + 1)
         == Midway(digits, b, c)[c := Midway(digits, b, c)[c] + DigitAt(digits[c], b)]
  {
    hide High, DigitAt;
    HighStep(digits[c], b);
  }

  ghost predicate AllDigits(digits: seq<seq<int>>) {
    forall c, i :: 0 <= c < |digits| && 0 <= i < |digits[c]| ==> IsDigit(digits[c][i])
  }

  /** The odd multiples 1, 3, 5, 7 of a base. */
  method OddMultiples(base: Pt) returns (table: seq<Pt>)
    ensures |table| == 4
    ensures forall i :: 0 <= i < 4 ==> table[i] == Smul(2 * i + 1, base)
  {
    hide *;
    SmulSmall(base);
    table := [base];
    var twice := Plus(base, base);
    for i := 1 to 4
      invariant |table| == i
      invariant forall j :: 0 <= j < i ==> table[j] == Smul(2 * j + 1, base)
    {
      SmulAdd(2 * i - 1, 2, base);
      assert 2 * (i - 1) + 1 == 2 * i - 1;
      table := table + [Plus(table[i - 1], twice)];
    }
  }

  function SignedBase(negate: bool, base: Pt): Pt {
    if negate then Opp(base) else base
  }

  /** Adding the table entry of a digit adds the digit times the base. */
  lemma TableEntry(table: seq<Pt>, base: Pt, digit: int, acc: Pt)
    requires |table| == 4 && forall i :: 0 <= i < 4 ==> table[i] == Smul(2 * i + 1, base)
    requires IsDigit(digit) && digit != 0
    ensures 0 <= (if digit < 0 then -digit else digit) / 2 < 4
    ensures digit < 0 ==> Minus(acc, table[(-digit) / 2]) == Plus(acc, Smul(digit, base))
    ensures digit > 0 ==> Plus(acc, table[digit / 2]) == Plus(acc, Smul(digit, base))
  {
    hide Smul, Plus, Opp;
    if digit < 0 {
      assert 2 * ((-digit) / 2) + 1 == -digit;
      SmulNeg(-digit, base);
    } else {
      assert 2 * (digit / 2) + 1 == digit;
    }
  }

  /** Longest digit string. */
  method MaxLength(digits: seq<seq<int>>) returns (top: nat)
    ensures forall c :: 0 <= c < |digits| ==> |digits[c]| <= top
    ensures top == 0 || exists c :: 0 <= c < |digits| && |digits[c]| == top
  {
    top := 0;
    for i := 0 to |digits|
      invariant forall c :: 0 <= c < i ==> |digits[c]| <= top
      invariant top == 0 || exists c :: 0 <= c < i && |digits[c]| == top
    {
      if |digits[i]| > top { top := |digits[i]|; }
    }
  }

  /** One bit position: add the table entry of every component's digit. */
  method AddPosition(digits: seq<seq<int>>, bases: seq<Pt>, tables: seq<seq<Pt>>, b: nat, acc0: Pt, started0: bool)
    returns (acc: Pt, started: bool)
    requires |digits| == |bases| == |tables| && AllDigits(digits)
    requires forall c :: 0 <= c < |tables| ==> |tables[c]| == 4
    requires forall c, i :: 0 <= c < |tables| && 0 <= i < 4 ==> tables[c][i] == Smul(2 * i + 1, bases[c])
    requires acc0 == Msm(Midway(digits, b, 0), bases)
    requires !started0 ==> acc0 == O
    ensures acc == Msm(Midway(digits, b, |digits|), bases)
    ensures !started ==> acc == O
  {
    hide Plus, Opp, Smul, Msm, Midway, IsDigit;
    acc, started := acc0, started0;
    for c := 0 to |digits|
      invariant acc == Msm(Midway(digits, b, c), bases)
      invariant !started ==> acc == O
    {
      var digit := DigitAt(digits[c], b);
      MidwayStep(digits, b, c);
      MsmAddAt(Midway(digits, b, c), c, digit, bases);
      if digit != 0 {
        TableEntry(tables[c], bases[c], digit, acc);
        var index := (if digit < 0 then -digit else digit) / 2;
        if digit < 0 {
          acc := Minus(acc, tables[c][index]);
        } else {
          acc := Plus(acc, tables[c][index]);
        }
        started := true;
      } else {
        SmulSmall(bases[c]);
        PlusO(acc);
      }
    }
  }

  lemma DoubledHeads(digits: seq<seq<int>>, b: nat, bases: seq<Pt>)
    requires |digits| == |bases|
    ensures Msm(Midway(digits, b, 0), bases)
         == Plus(Msm(Heads(digits, b + 1), bases), Msm(Heads(digits, b + 1), bases))
    ensures Midway(digits, b, |digits|) == Heads(digits, b)
  {
    hide High, Msm, Plus;
    assert Midway(digits, b, 0) == Doubled(Heads(digits, b + 1));
    MsmDoubled(Heads(digits, b + 1), bases);
  }

  /** The scan over bit positions from the top: a doubling per position once a
      digit has been seen, then one table lookup per component. */
  method Interleave(digits: seq<seq<int>>, bases: seq<Pt>, tables: seq<seq<Pt>>) returns (acc: Pt)
    requires |digits| == |bases| == |tables| && AllDigits(digits)
    requires forall c :: 0 <= c < |tables| ==> |tables[c]| == 4
    requires forall c, i :: 0 <= c < |tables| && 0 <= i < 4 ==> tables[c][i] == Smul(2 * i + 1, bases[c])
    ensures acc == Msm(Values(digits), bases)
  {
    hide Plus, Opp, Smul, Msm, Midway, Heads, Values, AllDigits;
    var numBits := MaxLength(digits);
    HeadsEnds(digits, numBits);
    MsmAllZero(Heads(digits, numBits), bases);
    acc := O;
    var started := false;
    var bit := numBits;
    while bit > 0
      invariant bit <= numBits
      invariant acc == Msm(Heads(digits, bit), bases)
      invariant !started ==> acc == O
    {
      bit := bit - 1;
      DoubledHeads(digits, bit, bases);
      PlusO(O);
      if started { acc := Plus(acc, acc); }
      acc, started := AddPosition(digits, bases, tables, bit, acc, started);
    }
  }

  /** The curve endomorphism acts on the group as multiplication by ZETA. */
  const ZETA: Fe

  function Endo(a: Pt): Pt {
    Smul(ZETA, a)
  }

  function ComponentBases(negate: seq<bool>, left: Pt, right: Pt): (b: seq<Pt>)
    requires |negate| == 4
    ensures |b| == 4
  {
    [SignedBase(negate[0], left), SignedBase(negate[1], Endo(left)),
     SignedBase(negate[2], right), SignedBase(negate[3], Endo(right))]
  }

  method EndoDoubleScalarMul(digits: seq<seq<int>>, negate: seq<bool>, left: Pt, right: Pt) returns (acc: Pt)
    requires |digits| == |negate| == 4 && AllDigits(digits)
    ensures acc == Msm(Values(digits), ComponentBases(negate, left, right))
  {
    hide Plus, Opp, Smul, Msm, Values, AllDigits;
    var bases := ComponentBases(negate, left, right);
    var tables: seq<seq<Pt>> := [];
    for c := 0 to 4
      invariant |tables| == c
      invariant forall k :: 0 <= k < c ==> |tables[k]| == 4
      invariant forall k, i :: 0 <= k < c && 0 <= i < 4 ==> tables[k][i] == Smul(2 * i + 1, bases[k])
    {
      var table := OddMultiples(bases[c]);
      tables := tables + [table];
    }
    acc := Interleave(digits, bases, tables);
  }

  // ------------------------------------------------------------------ GLV split

  /** Two 128-bit halves with their signs. */
  datatype Split = Split(k1: nat, neg1: bool, k2: nat, neg2: bool)

  function Signed(k: nat, neg: bool): int {
    if neg then 0 - k else k
  }

  /** The split stands for the scalar: s = k1 - k2 * ZETA. */
  predicate Splits(d: Split, s: Fe) {
    s == Sub(R(Signed(d.k1, d.neg1)), Mul(R(Signed(d.k2, d.neg2)), ZETA))
  }

  predicate Fits(d: Split) {
    d.k1 < Pow2(128) && d.k2 < Pow2(128)
  }

  /** One base: the two components of a split scalar add up to the scalar's multiple. */
  lemma SplitMul(d: Split, s: Fe, a: Pt)
    requires Splits(d, s)
    ensures Plus(Smul(d.k1, SignedBase(d.neg1, a)), Smul(d.k2, SignedBase(!d.neg2, Endo(a)))) == Smul(s, a)
  {
    var x, y := R(Signed(d.k1, d.neg1)), R(Signed(d.k2, d.neg2));
    SignedMul(d.k1, d.neg1, a);
    SignedMul(d.k2, d.neg2, Endo(a));
    SignedMul(d.k2, !d.neg2, Endo(a));
    assert Smul(d.k2, SignedBase(!d.neg2, Endo(a))) == Opp(Smul(y, Endo(a))) by {
      hide *;
      SignedFlip(d.k2, d.neg2);
      SmulNeg(Signed(d.k2, d.neg2), Endo(a));
    }
    SmulFMul(y, ZETA, a);
    SmulFSub(x, Mul(y, ZETA), a);
  }

  lemma SignedFlip(k: nat, neg: bool)
    ensures Signed(k, !neg) == -Signed(k, neg)
  {
  }

  lemma SignedMul(k: nat, neg: bool, a: Pt)
    ensures Smul(k, SignedBase(neg, a)) == Smul(Signed(k, neg), a)
    ensures Smul(R(Signed(k, neg)), a) == Smul(Signed(k, neg), a)
  {
    hide Smul, Opp, R;
    SmulOpp(k, a);
    SmulNeg(k, a);
    SmulR(Signed(k, neg), a);
  }

  lemma FourTerms(k: seq<int>, g: seq<Pt>)
    requires |k| == |g| == 4
    ensures Msm(k, g) == Plus(Plus(Smul(k[0], g[0]), Smul(k[1], g[1])), Plus(Smul(k[2], g[2]), Smul(k[3], g[3])))
  {
    hide Plus, Smul;
    var a, b, c, d := Smul(k[0], g[0]), Smul(k[1], g[1]), Smul(k[2], g[2]), Smul(k[3], g[3]);
    assert Msm(k[1..][1..][1..][1..], g[1..][1..][1..][1..]) == O;
    assert Msm(k[1..][1..][1..], g[1..][1..][1..]) == Plus(d, O);
    assert Msm(k[1..][1..], g[1..][1..]) == Plus(c, Plus(d, O));
    PlusO(d);
    PlusAssoc(a, b, Plus(c, d));
  }

  /** Every generator pair of a round, under one shared recoding. */
  method BatchDoubleScalarMulEndo(split: seq<Split>, ghost s: seq<Fe>, lefts: seq<Pt>, rights: seq<Pt>)
    returns (out: seq<Pt>)
    requires |split| == |s| == 2 && |lefts| == |rights|
    requires Splits(split[0], s[0]) && Splits(split[1], s[1])
    requires Fits(split[0]) && Fits(split[1])
    ensures |out| == |lefts|
    ensures forall i :: 0 <= i < |out| ==> out[i] == Plus(Smul(s[0], lefts[i]), Smul(s[1], rights[i]))
  {
    hide Plus, Opp, Smul, Msm, Value, Sparse3, Splits, Endo, SignedBase;
    var d0 := U128Wnaf(split[0].k1);
    var d1 := U128Wnaf(split[0].k2);
    var d2 := U128Wnaf(split[1].k1);
    var d3 := U128Wnaf(split[1].k2);
    var digits := [d0, d1, d2, d3];
    Sparse3Digits(d0); Sparse3Digits(d1); Sparse3Digits(d2); Sparse3Digits(d3);
    var negate := [split[0].neg1, !split[0].neg2, split[1].neg1, !split[1].neg2];
    out := [];
    for i := 0 to |lefts|
      invariant |out| == i
      invariant forall j :: 0 <= j < i ==> out[j] == Plus(Smul(s[0], lefts[j]), Smul(s[1], rights[j]))
    {
      var point := EndoDoubleScalarMul(digits, negate, lefts[i], rights[i]);
      FourTerms(Values(digits), ComponentBases(negate, lefts[i], rights[i]));
      SplitMul(split[0], s[0], lefts[i]);
      SplitMul(split[1], s[1], rights[i]);
      out := out + [point];
    }
  }

  lemma Sparse3Digits(d: seq<int>)
    requires Sparse3(d)
    ensures forall i :: 0 <= i < |d| ==> IsDigit(d[i])
  {
  }
}
