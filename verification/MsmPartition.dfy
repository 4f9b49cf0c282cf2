/** The full-width multi-scalar product: every nonzero term is classified by the
    bit lengths of its scalar and of the negated scalar, packed with its index
    into one word, sorted by class, and each class goes to its own algorithm. */
module MsmPartition {
  import opened PrimeField
  import opened PrimeGroup
  import opened Vectors
  import opened PowersOfTwo
  import opened Bits
  import opened SmallMsm

  const NUM_GROUPS := 11
  const INDEX_RANGE := 0x1000_0000_0000_0000

  // ------------------------------------------------------------- classification

  function GroupOf(s: Fe): (g: nat)
    ensures g < NUM_GROUPS
  {
    var bits, bitsNeg := NumBits(s), NumBits(Neg(s));
    if bits <= 1 then 0
    else if bitsNeg <= 1 then 1
    else if bits <= 8 then 2
    else if bitsNeg <= 8 then 3
    else if bits <= 16 then 4
    else if bitsNeg <= 16 then 5
    else if bits <= 32 then 6
    else if bitsNeg <= 32 then 7
    else if bits <= 64 then 8
    else if bitsNeg <= 64 then 9
    else 10
  }

  /** The bit length a class promises, for the scalar or for its negation. */
  function GroupBits(g: nat): nat {
    if g < 2 then 1 else if g < 4 then 8 else if g < 6 then 16 else if g < 8 then 32 else 64
  }

  lemma GroupMeaning(s: Fe)
    ensures GroupOf(s) < 10 && GroupOf(s) % 2 == 0 ==> NumBits(s) <= GroupBits(GroupOf(s))
    ensures GroupOf(s) < 10 && GroupOf(s) % 2 == 1 ==> NumBits(Neg(s)) <= GroupBits(GroupOf(s))
  {
    hide NumBits, Neg;
  }

  /** Class in the top four bits, index in the other sixty. */
  function Pack(i: nat, g: nat): nat {
    i % INDEX_RANGE + g * INDEX_RANGE
  }

  function ExtractGroup(v: nat): nat {
    v / INDEX_RANGE
  }

  function ExtractIndex(v: nat): nat {
    v % INDEX_RANGE
  }

  lemma Unpack(i: nat, g: nat)
    requires i < INDEX_RANGE
    ensures ExtractIndex(Pack(i, g)) == i && ExtractGroup(Pack(i, g)) == g
  {
  }

  ghost predicate IsEntry(v: nat, coeffs: Vec) {
    ExtractIndex(v) < |coeffs| && ExtractGroup(v) == GroupOf(coeffs[ExtractIndex(v)])
      && coeffs[ExtractIndex(v)] != 0
  }

  ghost predicate Entries(v: seq<nat>, coeffs: Vec) {
    forall k :: 0 <= k < |v| ==> IsEntry(v[k], coeffs)
  }

  function Term(v: nat, coeffs: Vec, bases: seq<Pt>): Pt
    requires |coeffs| == |bases|
  {
    if ExtractIndex(v) < |coeffs| then Smul(coeffs[ExtractIndex(v)], bases[ExtractIndex(v)]) else O
  }

  /** The sum of the terms a list of packed words names. */
  function TermSum(v: seq<nat>, coeffs: Vec, bases: seq<Pt>): Pt
    requires |coeffs| == |bases|
  {
    if |v| == 0 then O else Plus(Term(v[0], coeffs, bases), TermSum(v[1..], coeffs, bases))
  }

  lemma {:induction false} TermSumConcat(v: seq<nat>, w: seq<nat>, coeffs: Vec, bases: seq<Pt>)
    requires |coeffs| == |bases|
    ensures TermSum(v + w, coeffs, bases) == Plus(TermSum(v, coeffs, bases), TermSum(w, coeffs, bases))
  {
    hide Plus, Term;
    if |v| == 0 {
      assert v + w == w;
      PlusO(TermSum(w, coeffs, bases));
    } else {
      assert (v + w)[1..] == v[1..] + w;
      TermSumConcat(v[1..], w, coeffs, bases);
      PlusAssoc(Term(v[0], coeffs, bases), TermSum(v[1..], coeffs, bases), TermSum(w, coeffs, bases));
    }
  }

  lemma TermSumOne(x: nat, coeffs: Vec, bases: seq<Pt>)
    requires |coeffs| == |bases|
    ensures TermSum([x], coeffs, bases) == Term(x, coeffs, bases)
  {
    hide Plus, Term;
    assert [x][1..] == [];
    PlusO(Term(x, coeffs, bases));
  }

  /** The order of the words does not matter. */
  lemma {:induction false} TermSumPermuted(v: seq<nat>, w: seq<nat>, coeffs: Vec, bases: seq<Pt>)
    requires |coeffs| == |bases| && multiset(v) == multiset(w)
    ensures TermSum(v, coeffs, bases) == TermSum(w, coeffs, bases)
    decreases |v|
  {
    hide Plus, Term;
    assert |v| == |multiset(v)| == |w|;
    if |v| > 0 {
      assert v[0] in multiset(w);
      var k :| 0 <= k < |w| && w[k] == v[0];
      var left, right := w[..k], w[k + 1..];
      assert w == left + ([v[0]] + right);
      assert v == [v[0]] + v[1..];
      RestPermuted(v[0], v[1..], left, right);
      TermSumPermuted(v[1..], left + right, coeffs, bases);
      TermSumConcat(left, right, coeffs, bases);
      TermSumConcat(left, [v[0]] + right, coeffs, bases);
      TermSumConcat([v[0]], right, coeffs, bases);
      TermSumConcat([v[0]], v[1..], coeffs, bases);
      Swap3(TermSum([v[0]], coeffs, bases), TermSum(left, coeffs, bases), TermSum(right, coeffs, bases));
    }
  }

  lemma RestPermuted(x: nat, rest: seq<nat>, left: seq<nat>, right: seq<nat>)
    requires multiset([x] + rest) == multiset(left + ([x] + right))
    ensures multiset(rest) == multiset(left + right)
  {
    var m, n := multiset(rest), multiset(left + right);
    assert multiset([x] + rest) == multiset{x} + m;
    assert multiset(left + ([x] + right)) == multiset{x} + n;
    forall y ensures m[y] == n[y] {
      assert (multiset{x} + m)[y] == (multiset{x} + n)[y];
    }
  }

  lemma Swap3(x: Pt, l: Pt, r: Pt)
    ensures Plus(x, Plus(l, r)) == Plus(l, Plus(x, r))
  {
    hide *;
    PlusAssoc(x, l, r);
    PlusComm(x, l);
    PlusAssoc(l, x, r);
  }

  /** Zero scalars and identity bases are dropped; what is kept still adds up to
      the naive sum. */
  method Classify(coeffs: Vec, bases: seq<Pt>) returns (classified: seq<nat>)
    requires |coeffs| == |bases| && |coeffs| <= INDEX_RANGE
    ensures Entries(classified, coeffs)
    ensures TermSum(classified, coeffs, bases) == Msm(coeffs, bases)
  {
    hide Plus, Smul, Msm, TermSum, GroupOf, Pack, ExtractGroup, ExtractIndex;
    classified := [];
    NoTerms(coeffs, bases);
    NoWords(coeffs, bases);
    for i := 0 to |coeffs|
      invariant Entries(classified, coeffs)
      invariant TermSum(classified, coeffs, bases) == Msm(coeffs[..i], bases[..i])
    {
      MsmSnoc(coeffs, bases, i);
      if coeffs[i] == 0 || bases[i] == O {
        SmulSmall(bases[i]);
        SmulO(coeffs[i]);
        PlusO(TermSum(classified, coeffs, bases));
      } else {
        var word := Pack(i, GroupOf(coeffs[i]));
        Unpack(i, GroupOf(coeffs[i]));
        TermSumConcat(classified, [word], coeffs, bases);
        TermSumOne(word, coeffs, bases);
        classified := classified + [word];
      }
    }
    assert coeffs[..|coeffs|] == coeffs && bases[..|coeffs|] == bases;
  }

  lemma NoWords(coeffs: Vec, bases: seq<Pt>)
    requires |coeffs| == |bases|
    ensures TermSum([], coeffs, bases) == O
  {
  }

  // -------------------------------------------------------------- sort, boundaries

  ghost predicate SortedByGroup(v: seq<nat>) {
    forall i, j :: 0 <= i <= j < |v| ==> ExtractGroup(v[i]) <= ExtractGroup(v[j])
  }

  /** A sort by class; the order inside a class is whatever the sort leaves. */
  method SortByGroup(v: seq<nat>) returns (w: seq<nat>)
    ensures multiset(w) == multiset(v) && SortedByGroup(w)
  {
    hide ExtractGroup;
    w := [];
    for i := 0 to |v|
      invariant multiset(w) == multiset(v[..i]) && SortedByGroup(w)
    {
      assert v[..i + 1] == v[..i] + [v[i]];
      w := Insert(w, v[i]);
    }
    assert v[..|v|] == v;
  }

  method Insert(w: seq<nat>, x: nat) returns (u: seq<nat>)
    requires SortedByGroup(w)
    ensures multiset(u) == multiset(w + [x]) && SortedByGroup(u)
  {
    hide ExtractGroup;
    var p := PartitionPoint(w, 0, ExtractGroup(x));
    u := w[..p] + [x] + w[p..];
    assert w == w[..p] + w[p..];
    InsertSorted(w, p, x);
  }

  lemma InsertSorted(w: seq<nat>, p: nat, x: nat)
    requires SortedByGroup(w) && p <= |w|
    requires forall k :: 0 <= k < p ==> ExtractGroup(w[k]) <= ExtractGroup(x)
    requires forall k :: p <= k < |w| ==> ExtractGroup(w[k]) > ExtractGroup(x)
    ensures SortedByGroup(w[..p] + [x] + w[p..])
  {
    hide ExtractGroup;
    var u := w[..p] + [x] + w[p..];
    forall i, j | 0 <= i <= j < |u| ensures ExtractGroup(u[i]) <= ExtractGroup(u[j]) {
      assert u[i] == if i < p then w[i] else if i == p then x else w[i - 1];
      assert u[j] == if j < p then w[j] else if j == p then x else w[j - 1];
    }
  }

  /** First position from pos on whose class exceeds g. */
  method PartitionPoint(v: seq<nat>, pos: nat, g: nat) returns (p: nat)
    requires pos <= |v| && SortedByGroup(v)
    ensures pos <= p <= |v|
    ensures forall k :: pos <= k < p ==> ExtractGroup(v[k]) <= g
    ensures forall k :: p <= k < |v| ==> ExtractGroup(v[k]) > g
  {
    hide ExtractGroup;
    p := pos;
    var high := |v|;
    while p < high
      invariant pos <= p <= high <= |v|
      invariant forall k :: pos <= k < p ==> ExtractGroup(v[k]) <= g
      invariant forall k :: high <= k < |v| ==> ExtractGroup(v[k]) > g
    {
      var mid := (p + high) / 2;
      if ExtractGroup(v[mid]) <= g { p := mid + 1; } else { high := mid; }
    }
  }

  /** Class g occupies the positions from boundaries[g] to boundaries[g + 1]. */
  ghost predicate Partitioned(v: seq<nat>, b: seq<nat>) {
    && |b| == NUM_GROUPS + 1 && b[0] == 0 && b[NUM_GROUPS] == |v|
    && (forall g :: 0 <= g < NUM_GROUPS ==> b[g] <= b[g + 1])
    && (forall g :: 0 <= g <= NUM_GROUPS ==> b[g] <= |v|)
    && forall g, k :: 0 <= g < NUM_GROUPS && b[g] <= k < b[g + 1] ==> ExtractGroup(v[k]) == g
  }

  method Boundaries(v: seq<nat>) returns (b: seq<nat>)
    requires SortedByGroup(v) && forall k :: 0 <= k < |v| ==> ExtractGroup(v[k]) < NUM_GROUPS
    ensures Partitioned(v, b)
  {
    hide ExtractGroup, PartitionedUpTo;
    b := [];
    var pos := 0;
    PartitionStart(v);
    assert b + [pos] == [0];
    for g := 0 to NUM_GROUPS
      invariant |b| == g && pos <= |v|
      invariant PartitionedUpTo(v, b + [pos], g)
    {
      b := b + [pos];
      pos := PartitionPoint(v, pos, g);
      PartitionStep(v, b, g, pos);
    }
    PartitionEnd(v, b, pos);
    b := b + [|v|];
  }

  /** The boundaries found so far, the last one being the next position to look at. */
  ghost predicate PartitionedUpTo(v: seq<nat>, b: seq<nat>, g: nat) {
    && |b| == g + 1 && b[0] == 0
    && (forall h :: 0 <= h < g ==> b[h] <= b[h + 1])
    && (forall h :: 0 <= h <= g ==> b[h] <= |v|)
    && (forall h, k :: 0 <= h < g && b[h] <= k < b[h + 1] ==> ExtractGroup(v[k]) == h)
    && forall k :: b[g] <= k < |v| ==> ExtractGroup(v[k]) >= g
  }

  lemma PartitionStart(v: seq<nat>)
    ensures PartitionedUpTo(v, [0], 0)
  {
  }

  lemma PartitionStep(v: seq<nat>, b: seq<nat>, g: nat, p: nat)
    requires PartitionedUpTo(v, b, g) && b[g] <= p <= |v|
    requires forall k :: b[g] <= k < p ==> ExtractGroup(v[k]) <= g
    requires forall k :: p <= k < |v| ==> ExtractGroup(v[k]) > g
    ensures PartitionedUpTo(v, b + [p], g + 1)
  {
    hide ExtractGroup;
  }

  lemma PartitionEnd(v: seq<nat>, b: seq<nat>, pos: nat)
    requires PartitionedUpTo(v, b + [pos], NUM_GROUPS)
    requires forall k :: 0 <= k < |v| ==> ExtractGroup(v[k]) < NUM_GROUPS
    ensures Partitioned(v, b + [|v|])
  {
    hide ExtractGroup;
    assert (b + [pos])[NUM_GROUPS] == pos && pos <= |v|;
    if |v| > 0 { assert ExtractGroup(v[|v| - 1]) < NUM_GROUPS; }
  }

  // ------------------------------------------------------------------ the classes

  /** Sum of the bases, in chunks when there are more of them than threads. */
  method AccumulateBases(bases: seq<Pt>, threads: nat) returns (acc: Pt)
    requires threads >= 1
    ensures acc == Total(bases)
  {
    hide Plus, Total;
    acc := O;
    EmptyTotal(bases);
    var chunk := if |bases| > threads then (|bases| + threads - 1) / threads else |bases|;
    var i := 0;
    while i < |bases|
      invariant 0 <= i <= |bases|
      invariant acc == Total(bases[..i])
      decreases |bases| - i
    {
      ChunkPositive(|bases|, threads);
      var j := if i + chunk <= |bases| then i + chunk else |bases|;
      var part := O;
      PlusO(O);
      assert bases[i..i] == [];
      for k := i to j
        invariant part == Total(bases[i..k])
      {
        assert bases[i..k + 1] == bases[i..k] + [bases[k]];
        TotalSnoc(bases[i..k], bases[k]);
        part := Plus(part, bases[k]);
      }
      assert bases[..j] == bases[..i] + bases[i..j];
      TotalConcat(bases[..i], bases[i..j]);
      acc := Plus(acc, part);
      i := j;
    }
    assert bases[..i] == bases;
  }

  lemma EmptyTotal(b: seq<Pt>)
    ensures Total(b[..0]) == O && Total([]) == O
  {
  }

  lemma ChunkPositive(n: nat, threads: nat)
    requires n > 0 && threads >= 1
    ensures (if n > threads then (n + threads - 1) / threads else n) >= 1
  {
  }

  lemma {:induction false} TotalConcat(a: seq<Pt>, b: seq<Pt>)
    ensures Total(a + b) == Plus(Total(a), Total(b))
  {
    hide Plus;
    if |a| == 0 {
      assert a + b == b;
      PlusO(Total(b));
    } else {
      assert (a + b)[1..] == a[1..] + b;
      TotalConcat(a[1..], b);
      PlusAssoc(a[0], Total(a[1..]), Total(b));
    }
  }

  lemma TotalSnoc(a: seq<Pt>, p: Pt)
    ensures Total(a + [p]) == Plus(Total(a), p)
  {
    hide Plus;
    TotalConcat(a, [p]);
    assert [p][1..] == [];
    PlusO(p);
  }

  method ExtractBases(words: seq<nat>, ghost coeffs: Vec, bases: seq<Pt>) returns (b: seq<Pt>)
    requires Entries(words, coeffs) && |coeffs| == |bases|
    ensures |b| == |words|
    ensures forall k :: 0 <= k < |b| ==> ExtractIndex(words[k]) < |bases| && b[k] == bases[ExtractIndex(words[k])]
  {
    hide ExtractIndex;
    b := [];
    for k := 0 to |words|
      invariant |b| == k
      invariant forall j :: 0 <= j < k ==> ExtractIndex(words[j]) < |bases| && b[j] == bases[ExtractIndex(words[j])]
    {
      assert IsEntry(words[k], coeffs);
      b := b + [bases[ExtractIndex(words[k])]];
    }
  }

  function SignedCoeff(c: Fe, negate: bool): Fe {
    if negate then Neg(c) else c
  }

  /** The bases of a class and the low 64 bits of its (negated) scalars. */
  method ExtractU64Group(words: seq<nat>, negate: bool, coeffs: Vec, bases: seq<Pt>)
    returns (b: seq<Pt>, s: seq<nat>)
    requires Entries(words, coeffs) && |coeffs| == |bases|
    ensures |b| == |s| == |words|
    ensures forall k :: 0 <= k < |b| ==> ExtractIndex(words[k]) < |bases| && b[k] == bases[ExtractIndex(words[k])]
    ensures forall k :: 0 <= k < |s| ==> s[k] == LowBits(SignedCoeff(coeffs[ExtractIndex(words[k])], negate), 64)
  {
    hide ExtractIndex, LowBits, SignedCoeff;
    b := ExtractBases(words, coeffs, bases);
    s := [];
    for k := 0 to |words|
      invariant |s| == k
      invariant forall j :: 0 <= j < k ==> s[j] == LowBits(SignedCoeff(coeffs[ExtractIndex(words[j])], negate), 64)
    {
      s := s + [LowBits(SignedCoeff(coeffs[ExtractIndex(words[k])], negate), 64)];
    }
  }

  /** Every word of the list is of class g. */
  ghost predicate OfGroup(words: seq<nat>, g: nat) {
    forall k :: 0 <= k < |words| ==> ExtractGroup(words[k]) == g
  }

  /** Summing a class with unsigned scalars gives its terms, negated for an odd class. */
  lemma {:induction false} GroupSum(words: seq<nat>, g: nat, s: seq<nat>, b: seq<Pt>, coeffs: Vec, bases: seq<Pt>)
    requires Entries(words, coeffs) && |coeffs| == |bases| && |s| == |b| == |words|
    requires forall k :: 0 <= k < |b| ==> ExtractIndex(words[k]) < |bases| && b[k] == bases[ExtractIndex(words[k])]
    requires forall k :: 0 <= k < |s| ==> s[k] == SignedCoeff(coeffs[ExtractIndex(words[k])], g % 2 == 1)
    ensures Msm(s, b) == SignedPoint(TermSum(words, coeffs, bases), g)
  {
    hide Plus, Smul, Opp, ExtractIndex, ExtractGroup, GroupOf;
    if |words| == 0 {
      OppO();
    } else {
      GroupSum(words[1..], g, s[1..], b[1..], coeffs, bases);
      SignedTerm(coeffs[ExtractIndex(words[0])], g, b[0]);
      OppPlus(Term(words[0], coeffs, bases), TermSum(words[1..], coeffs, bases));
    }
  }

  function SignedPoint(a: Pt, g: nat): Pt {
    if g % 2 == 1 then Opp(a) else a
  }

  lemma SignedTerm(c: Fe, g: nat, b: Pt)
    ensures Smul(SignedCoeff(c, g % 2 == 1), b) == SignedPoint(Smul(c, b), g)
  {
    hide Smul, Sub, Plus;
    SmulFSub(0, c, b);
    SmulSmall(b);
    PlusO(Opp(Smul(c, b)));
  }

  /** In a class below 10 the low 64 bits of the (negated) scalar are all of it. */
  lemma GroupScalars(words: seq<nat>, g: nat, s: seq<nat>, coeffs: Vec)
    requires Entries(words, coeffs) && OfGroup(words, g) && g < 10 && |s| == |words|
    requires forall k :: 0 <= k < |s| ==>
               ExtractIndex(words[k]) < |coeffs|
               && s[k] == LowBits(SignedCoeff(coeffs[ExtractIndex(words[k])], g % 2 == 1), 64)
    ensures Below(s, Pow2(GroupBits(g)))
    ensures forall k :: 0 <= k < |s| ==> s[k] == SignedCoeff(coeffs[ExtractIndex(words[k])], g % 2 == 1)
  {
    hide ExtractIndex, ExtractGroup, GroupOf, Pow2, LowBits, Neg, GroupBits, NumBits;
    forall k | 0 <= k < |s|
      ensures s[k] < Pow2(GroupBits(g)) && s[k] == SignedCoeff(coeffs[ExtractIndex(words[k])], g % 2 == 1)
    {
      assert IsEntry(words[k], coeffs);
      GroupScalar(coeffs[ExtractIndex(words[k])], g);
    }
  }

  lemma GroupScalar(c: Fe, g: nat)
    requires GroupOf(c) == g && g < 10
    ensures SignedCoeff(c, g % 2 == 1) < Pow2(GroupBits(g))
    ensures LowBits(SignedCoeff(c, g % 2 == 1), 64) == SignedCoeff(c, g % 2 == 1)
  {
    hide GroupOf, Pow2, LowBits, NumBits, Neg;
    GroupMeaning(c);
    var x := SignedCoeff(c, g % 2 == 1);
    NumBitsBound(x, GroupBits(g));
    NumBitsBound(x, 64);
    LowBitsSmall(x, 64);
  }

  /** A positive class and the negative class after it: the difference of the two
      small products is the sum of their terms. */
  method SmallPair(pos: seq<nat>, neg: seq<nat>, g: nat, coeffs: Vec, bases: seq<Pt>, threads: nat) returns (r: Pt)
    requires |coeffs| == |bases| && threads >= 1
    requires Entries(pos, coeffs) && Entries(neg, coeffs) && OfGroup(pos, g) && OfGroup(neg, g + 1)
    requires g in {2, 4, 6, 8}
    ensures r == Plus(TermSum(pos, coeffs, bases), TermSum(neg, coeffs, bases))
  {
    hide Plus, Opp, Msm, TermSum, Entries, OfGroup, Pow2, Below, LowBits, ExtractIndex, SignedCoeff;
    var posBases, posScalars := ExtractU64Group(pos, false, coeffs, bases);
    var negBases, negScalars := ExtractU64Group(neg, true, coeffs, bases);
    GroupScalars(pos, g, posScalars, coeffs);
    GroupScalars(neg, g + 1, negScalars, coeffs);
    GroupSum(pos, g, posScalars, posBases, coeffs, bases);
    GroupSum(neg, g + 1, negScalars, negBases, coeffs, bases);
    var posSum := MsmSmallWithMaxNumBits(posScalars, posBases, GroupBits(g), threads);
    var negSum := MsmSmallWithMaxNumBits(negScalars, negBases, GroupBits(g), threads);
    OppOpp(TermSum(neg, coeffs, bases));
    r := Minus(posSum, negSum);
  }

  /** In the unit classes the (negated) scalar is one, so bases are just added. */
  lemma {:induction false} UnitSum(words: seq<nat>, g: nat, b: seq<Pt>, coeffs: Vec, bases: seq<Pt>)
    requires Entries(words, coeffs) && OfGroup(words, g) && g < 2 && |coeffs| == |bases| && |b| == |words|
    requires forall k :: 0 <= k < |b| ==> ExtractIndex(words[k]) < |bases| && b[k] == bases[ExtractIndex(words[k])]
    ensures Total(b) == SignedPoint(TermSum(words, coeffs, bases), g)
  {
    hide Plus, Smul, Opp, ExtractIndex, ExtractGroup, GroupOf;
    if |words| == 0 {
      OppO();
    } else {
      UnitSum(words[1..], g, b[1..], coeffs, bases);
      assert IsEntry(words[0], coeffs);
      UnitScalar(coeffs[ExtractIndex(words[0])], g);
      SignedTerm(coeffs[ExtractIndex(words[0])], g, b[0]);
      SmulSmall(b[0]);
      OppPlus(Term(words[0], coeffs, bases), TermSum(words[1..], coeffs, bases));
    }
  }

  lemma UnitScalar(c: Fe, g: nat)
    requires GroupOf(c) == g && g < 2 && c != 0
    ensures SignedCoeff(c, g % 2 == 1) == 1
  {
    GroupScalar(c, g);
    assert Pow2(1) == 2;
  }

  method UnitPair(pos: seq<nat>, neg: seq<nat>, ghost coeffs: Vec, bases: seq<Pt>, threads: nat) returns (r: Pt)
    requires |coeffs| == |bases| && threads >= 1
    requires Entries(pos, coeffs) && Entries(neg, coeffs) && OfGroup(pos, 0) && OfGroup(neg, 1)
    ensures r == Plus(TermSum(pos, coeffs, bases), TermSum(neg, coeffs, bases))
  {
    hide Plus, Opp, Total, TermSum, Entries, OfGroup, ExtractIndex;
    var posBases := ExtractBases(pos, coeffs, bases);
    var negBases := ExtractBases(neg, coeffs, bases);
    UnitSum(pos, 0, posBases, coeffs, bases);
    UnitSum(neg, 1, negBases, coeffs, bases);
    var posSum := AccumulateBases(posBases, threads);
    var negSum := AccumulateBases(negBases, threads);
    OppOpp(TermSum(neg, coeffs, bases));
    r := Minus(posSum, negSum);
  }

  /** The remaining class goes to the foreign `msm_best`, taken at its contract. */
  method LargeSum(words: seq<nat>, coeffs: Vec, bases: seq<Pt>) returns (r: Pt)
    requires |coeffs| == |bases| && Entries(words, coeffs)
    ensures r == TermSum(words, coeffs, bases)
  {
    hide Msm, Plus, ExtractIndex;
    var largeBases := ExtractBases(words, coeffs, bases);
    var largeCoeffs: Vec := [];
    for k := 0 to |words|
      invariant |largeCoeffs| == k
      invariant forall j :: 0 <= j < k ==>
                  ExtractIndex(words[j]) < |coeffs| && largeCoeffs[j] == coeffs[ExtractIndex(words[j])]
    {
      assert IsEntry(words[k], coeffs);
      largeCoeffs := largeCoeffs + [coeffs[ExtractIndex(words[k])]];
    }
    GroupSum(words, 10, largeCoeffs, largeBases, coeffs, bases);
    r := Msm(largeCoeffs, largeBases);
  }

  // ------------------------------------------------------------- the whole product

  /** The terms of the classes below g. */
  lemma {:induction false} PrefixSum(v: seq<nat>, b: seq<nat>, g: nat, coeffs: Vec, bases: seq<Pt>)
    requires |coeffs| == |bases| && Partitioned(v, b) && g < NUM_GROUPS
    ensures TermSum(v[..b[g + 1]], coeffs, bases)
         == Plus(TermSum(v[..b[g]], coeffs, bases), TermSum(v[b[g]..b[g + 1]], coeffs, bases))
  {
    assert v[..b[g + 1]] == v[..b[g]] + v[b[g]..b[g + 1]];
    TermSumConcat(v[..b[g]], v[b[g]..b[g + 1]], coeffs, bases);
  }

  function Class(v: seq<nat>, b: seq<nat>, g: nat): seq<nat>
    requires Partitioned(v, b) && g < NUM_GROUPS
  {
    v[b[g]..b[g + 1]]
  }

  lemma ClassFacts(v: seq<nat>, b: seq<nat>, g: nat, coeffs: Vec)
    requires Partitioned(v, b) && g < NUM_GROUPS && Entries(v, coeffs)
    ensures Entries(Class(v, b, g), coeffs) && OfGroup(Class(v, b, g), g)
  {
    hide ExtractGroup, ExtractIndex, GroupOf;
  }

  /** The eleven classes, paired the way the results are combined, add up to the whole. */
  lemma AllClasses(v: seq<nat>, b: seq<nat>, coeffs: Vec, bases: seq<Pt>, unit: Pt, r8: Pt, r16: Pt, r32: Pt, r64: Pt, large: Pt)
    requires |coeffs| == |bases| && Partitioned(v, b)
    requires unit == Plus(TermSum(Class(v, b, 0), coeffs, bases), TermSum(Class(v, b, 1), coeffs, bases))
    requires r8 == Plus(TermSum(Class(v, b, 2), coeffs, bases), TermSum(Class(v, b, 3), coeffs, bases))
    requires r16 == Plus(TermSum(Class(v, b, 4), coeffs, bases), TermSum(Class(v, b, 5), coeffs, bases))
    requires r32 == Plus(TermSum(Class(v, b, 6), coeffs, bases), TermSum(Class(v, b, 7), coeffs, bases))
    requires r64 == Plus(TermSum(Class(v, b, 8), coeffs, bases), TermSum(Class(v, b, 9), coeffs, bases))
    requires large == TermSum(Class(v, b, 10), coeffs, bases)
    ensures TermSum(v, coeffs, bases) == Plus(unit, Plus(Plus(Plus(Plus(r8, r16), r32), r64), large))
  {
    hide Plus, TermSum;
    NoWords(coeffs, bases);
    assert v[..b[0]] == [] && v[..b[NUM_GROUPS]] == v;
    PrefixPair(v, b, 0, coeffs, bases);
    PrefixPair(v, b, 2, coeffs, bases);
    PrefixPair(v, b, 4, coeffs, bases);
    PrefixPair(v, b, 6, coeffs, bases);
    PrefixPair(v, b, 8, coeffs, bases);
    PrefixSum(v, b, 10, coeffs, bases);
    PlusO(unit);
    Rebracket(unit, r8, r16, r32, r64, large);
  }

  lemma PrefixPair(v: seq<nat>, b: seq<nat>, g: nat, coeffs: Vec, bases: seq<Pt>)
    requires |coeffs| == |bases| && Partitioned(v, b) && g + 1 < NUM_GROUPS
    ensures TermSum(v[..b[g + 2]], coeffs, bases)
         == Plus(TermSum(v[..b[g]], coeffs, bases),
                 Plus(TermSum(Class(v, b, g), coeffs, bases), TermSum(Class(v, b, g + 1), coeffs, bases)))
  {
    hide Plus, TermSum;
    PrefixSum(v, b, g, coeffs, bases);
    PrefixSum(v, b, g + 1, coeffs, bases);
    PlusAssoc(TermSum(v[..b[g]], coeffs, bases), TermSum(Class(v, b, g), coeffs, bases),
              TermSum(Class(v, b, g + 1), coeffs, bases));
  }

  lemma Rebracket(u: Pt, a: Pt, b: Pt, c: Pt, d: Pt, e: Pt)
    ensures Plus(Plus(Plus(Plus(Plus(u, a), b), c), d), e) == Plus(u, Plus(Plus(Plus(Plus(a, b), c), d), e))
  {
    hide *;
    PlusAssoc(u, a, b);
    PlusAssoc(u, Plus(a, b), c);
    PlusAssoc(u, Plus(Plus(a, b), c), d);
    PlusAssoc(u, Plus(Plus(Plus(a, b), c), d), e);
  }

  /** Each class to its algorithm, and the results combined, for any arrangement of
      the words by class. */
  method CombineClasses(v: seq<nat>, b: seq<nat>, coeffs: Vec, bases: seq<Pt>, threads: nat) returns (r: Pt)
    requires |coeffs| == |bases| && threads >= 1 && Entries(v, coeffs) && Partitioned(v, b)
    ensures r == TermSum(v, coeffs, bases)
  {
    hide *;
    assert |b| == NUM_GROUPS + 1 && NUM_GROUPS == 11 by { PartitionedShape(v, b); }
    ClassesFacts(v, b, coeffs);
    var unit := UnitPair(Class(v, b, 0), Class(v, b, 1), coeffs, bases, threads);
    var r8 := SmallPair(Class(v, b, 2), Class(v, b, 3), 2, coeffs, bases, threads);
    var r16 := SmallPair(Class(v, b, 4), Class(v, b, 5), 4, coeffs, bases, threads);
    var r32 := SmallPair(Class(v, b, 6), Class(v, b, 7), 6, coeffs, bases, threads);
    var r64 := SmallPair(Class(v, b, 8), Class(v, b, 9), 8, coeffs, bases, threads);
    var large := LargeSum(Class(v, b, 10), coeffs, bases);
    AllClasses(v, b, coeffs, bases, unit, r8, r16, r32, r64, large);
    var small := Plus(Plus(Plus(r8, r16), r32), r64);
    r := Plus(unit, Plus(small, large));
  }

  lemma PartitionedShape(v: seq<nat>, b: seq<nat>)
    requires Partitioned(v, b)
    ensures |b| == NUM_GROUPS + 1 && NUM_GROUPS == 11
  {
  }

  lemma ClassesFacts(v: seq<nat>, b: seq<nat>, coeffs: Vec)
    requires Partitioned(v, b) && Entries(v, coeffs)
    ensures forall g {:trigger Class(v, b, g)} :: 0 <= g < NUM_GROUPS ==>
              Entries(Class(v, b, g), coeffs) && OfGroup(Class(v, b, g), g)
  {
    hide Entries, OfGroup, Class, Partitioned;
    forall g | 0 <= g < NUM_GROUPS
      ensures Entries(Class(v, b, g), coeffs) && OfGroup(Class(v, b, g), g)
    {
      ClassFacts(v, b, g, coeffs);
    }
  }

  lemma EntriesPermuted(v: seq<nat>, w: seq<nat>, coeffs: Vec)
    requires Entries(v, coeffs) && multiset(w) == multiset(v)
    ensures Entries(w, coeffs)
  {
    hide IsEntry;
    forall k | 0 <= k < |w| ensures IsEntry(w[k], coeffs) {
      assert w[k] in multiset(w);
      assert w[k] in v;
    }
  }

  lemma EntriesInRange(v: seq<nat>, coeffs: Vec)
    requires Entries(v, coeffs)
    ensures forall k :: 0 <= k < |v| ==> ExtractGroup(v[k]) < NUM_GROUPS
  {
    hide GroupOf, ExtractGroup, ExtractIndex;
    forall k | 0 <= k < |v| ensures ExtractGroup(v[k]) < NUM_GROUPS { assert IsEntry(v[k], coeffs); }
  }

  method MsmSimple(coeffs: Vec, bases: seq<Pt>) returns (acc: Pt)
    requires |coeffs| == |bases|
    ensures acc == Msm(coeffs, bases)
  {
    hide Plus, Smul, Msm;
    acc := O;
    NoTerms(coeffs, bases);
    for i := 0 to |coeffs|
      invariant acc == Msm(coeffs[..i], bases[..i])
    {
      MsmSnoc(coeffs, bases, i);
      acc := Plus(acc, Smul(coeffs[i], bases[i]));
    }
    assert coeffs[..|coeffs|] == coeffs && bases[..|coeffs|] == bases;
  }

  /** The product equals the naive sum for every input a packed word can index. */
  method MultiScalarMul(coeffs: Vec, bases: seq<Pt>, threads: nat) returns (r: Pt)
    requires |coeffs| == |bases| && |coeffs| <= INDEX_RANGE && threads >= 1
    ensures r == Msm(coeffs, bases)
  {
    hide Msm, TermSum, Entries, Partitioned, SortedByGroup;
    if |coeffs| == 0 {
      NoTerms(coeffs, bases);
      assert coeffs == coeffs[..0] && bases == bases[..0];
      return O;
    }
    if |coeffs| <= 16 {
      r := MsmSimple(coeffs, bases);
      return;
    }
    var classified := Classify(coeffs, bases);
    if |classified| == 0 {
      NoWords(coeffs, bases);
      assert classified == [];
      return O;
    }
    var sorted := SortByGroup(classified);
    TermSumPermuted(classified, sorted, coeffs, bases);
    EntriesPermuted(classified, sorted, coeffs);
    EntriesInRange(sorted, coeffs);
    var boundaries := Boundaries(sorted);
    r := CombineClasses(sorted, boundaries, coeffs, bases, threads);
  }
}
