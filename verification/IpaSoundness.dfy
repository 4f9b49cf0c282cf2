/** What an accepted inner product argument guarantees, however it was made: the verdict on
    every argument, and the extraction of the committed vector from a tree of accepted
    arguments.  The transcripts are written out. */
module IpaSoundness {
  import opened PrimeField
  import opened FieldLaws
  import opened PrimeGroup
  import opened Vectors
  import opened Pedersen
  import opened BatchInvert
  import opened PowersOfTwo
  import opened Transcripts
  import opened Polynomials
  import Interpolation
  import opened PointExtraction
  import opened Ipa

  // --------------------------------------------------- the verdict on any argument

  /** What the first i rounds leave in the transcript. */
  function Sent(L: seq<Pt>, R: seq<Pt>, i: nat): Log<Msg>
    requires i <= |L| == |R|
  {
    if i == 0 then [] else Sent(L, R, i - 1) + [Said(AbsorbL(L[i - 1])), Said(AbsorbR(R[i - 1])), Squeezed]
  }

  /** The oracle answers the messages of round i with rs[i]. */
  predicate Answered(f: Oracle<Msg>, log: Log<Msg>, L: seq<Pt>, R: seq<Pt>, rs: seq<Fe>) {
    && |L| == |R| == |rs|
    && forall i :: 0 <= i < |rs| ==> f(log + Sent(L, R, i) + [Said(AbsorbL(L[i])), Said(AbsorbR(R[i]))]) == rs[i]
  }

  lemma {:induction false} SentShift(L: seq<Pt>, R: seq<Pt>, i: nat)
    requires |L| == |R| && i < |L|
    ensures Sent(L, R, i + 1) == [Said(AbsorbL(L[0])), Said(AbsorbR(R[0])), Squeezed] + Sent(L[1..], R[1..], i)
  {
    hide Sent;
    SentLast(L, R, i);
    NothingSent(L, R);
    NothingSent(L[1..], R[1..]);
    if i > 0 {
      SentShift(L, R, i - 1);
      SentLast(L[1..], R[1..], i - 1);
      Associate([Said(AbsorbL(L[0])), Said(AbsorbR(R[0])), Squeezed], Sent(L[1..], R[1..], i - 1),
                [Said(AbsorbL(L[i])), Said(AbsorbR(R[i])), Squeezed]);
    }
  }

  lemma SentLast(L: seq<Pt>, R: seq<Pt>, i: nat)
    requires |L| == |R| && i < |L|
    ensures Sent(L, R, i + 1) == Sent(L, R, i) + [Said(AbsorbL(L[i])), Said(AbsorbR(R[i])), Squeezed]
  {
  }

  lemma Associate(a: Log<Msg>, b: Log<Msg>, c: Log<Msg>)
    ensures (a + b) + c == a + (b + c)
  {
  }

  lemma AnsweredRest(f: Oracle<Msg>, log: Log<Msg>, L: seq<Pt>, R: seq<Pt>, rs: seq<Fe>)
    requires Answered(f, log, L, R, rs) && |rs| > 0
    ensures f(log + [Said(AbsorbL(L[0]))] + [Said(AbsorbR(R[0]))]) == rs[0]
    ensures Answered(f, log + [Said(AbsorbL(L[0]))] + [Said(AbsorbR(R[0]))] + [Squeezed], L[1..], R[1..], rs[1..])
  {
    hide Sent;
    var log1 := log + [Said(AbsorbL(L[0]))] + [Said(AbsorbR(R[0]))];
    assert Sent(L, R, 0) == [] by { NothingSent(L, R); }
    assert log + Sent(L, R, 0) + [Said(AbsorbL(L[0])), Said(AbsorbR(R[0]))] == log1;
    forall i | 0 <= i < |rs| - 1
      ensures f(log1 + [Squeezed] + Sent(L[1..], R[1..], i) + [Said(AbsorbL(L[1..][i])), Said(AbsorbR(R[1..][i]))])
           == rs[1..][i]
    {
      SentShift(L, R, i);
      assert log1 + [Squeezed] + Sent(L[1..], R[1..], i) == log + Sent(L, R, i + 1);
    }
  }

  lemma NothingSent(L: seq<Pt>, R: seq<Pt>)
    requires |L| == |R|
    ensures Sent(L, R, 0) == []
  {
  }

  lemma {:induction false} ChallengesRead(f: Oracle<Msg>, log: Log<Msg>, L: seq<Pt>, R: seq<Pt>, rs: seq<Fe>)
    requires Answered(f, log, L, R, rs)
    ensures |L| == |R| && Challenges(L, R, f, log) == rs
    decreases |rs|
  {
    hide Answered;
    assert |L| == |R| == |rs| by { SameCount(f, log, L, R, rs); }
    if |rs| > 0 {
      AnsweredRest(f, log, L, R, rs);
      ChallengesRead(f, log + [Said(AbsorbL(L[0]))] + [Said(AbsorbR(R[0]))] + [Squeezed], L[1..], R[1..], rs[1..]);
    }
  }

  lemma SameCount(f: Oracle<Msg>, log: Log<Msg>, L: seq<Pt>, R: seq<Pt>, rs: seq<Fe>)
    requires Answered(f, log, L, R, rs)
    ensures |L| == |R| == |rs|
  {
  }

  /** The weighted equation over generators g, with p the commitment plus the claim. */
  predicate Equation(rs: seq<Fe>, g: seq<Pt>, b: Vec, p: Pt, L: seq<Pt>, R: seq<Pt>, aHat: Fe, w: Pt)
    requires |L| == |R| == |rs| && |g| == |b| == Pow2(|rs|)
  {
    Plus(Plus(Msm(Squares(rs), L), Msm(Squares(Invs(rs)), R)), p)
    == Smul(aHat, Plus(Msm(TensorVector(rs), g), Smul(Dot(b, TensorVector(rs)), w)))
  }

  predicate LengthsFit(n: nat, b: Vec, L: seq<Pt>, R: seq<Pt>) {
    n == |b| == Pow2(|L|) && |L| == |R| && |L| < 32
  }

  /** For every argument, honest or not, and the challenges rs read from its messages: the
      wrong number of messages is reported, a zero challenge is an error, and otherwise
      the argument is accepted exactly when the weighted equation holds. */
  lemma VerdictExactly(key: Key, uKey: Key, n: nat, U: Instance, L: seq<Pt>, R: seq<Pt>, aHat: Fe, rs: seq<Fe>,
                       f: Oracle<Msg>, log: Log<Msg>)
    requires |U.b| <= |key.ck| && |uKey.ck| == 1
    requires |L| == |R| ==>
      Answered(f, log + [Said(DomSep), Said(AbsorbU(U.commA, U.c)), Squeezed], L, R, rs)
    ensures var o := VerifySpec(key, uKey, n, U, Argument(L, R, aHat), f, log);
      var w := Smul(f(log + [Said(DomSep), Said(AbsorbU(U.commA, U.c))]), uKey.ck[0]);
      && (o == InvalidInputLength <==> !LengthsFit(n, U.b, L, R))
      && (o == InternalError <==> LengthsFit(n, U.b, L, R) && 0 in rs)
      && (o == Ok(()) <==> (&& LengthsFit(n, U.b, L, R) && 0 !in rs
                            && Equation(rs, key.ck[..n], U.b, Plus(U.commA, Smul(U.c, w)), L, R, aHat, w)))
      && (o in [InvalidInputLength, InternalError, Ok(()), InvalidPCS])
  {
    hide Mul, Plus, Smul, Msm, Dot, TensorVector, Squares, Invs, Pow2, Answered, Challenges;
    var log1 := log + [Said(DomSep)] + [Said(AbsorbU(U.commA, U.c))];
    assert log1 == log + [Said(DomSep), Said(AbsorbU(U.commA, U.c))];
    assert log1 + [Squeezed] == log + [Said(DomSep), Said(AbsorbU(U.commA, U.c)), Squeezed];
    if LengthsFit(n, U.b, L, R) {
      ChallengesRead(f, log1 + [Squeezed], L, R, rs);
      InversesMeaning(rs, []);
    }
  }

  // -------------------------------------------- one round seen from the verifier's side

  /** Generators, public vector and point still to be opened. */
  datatype View = View(g: seq<Pt>, b: Vec, p: Pt)

  predicate ViewOf(v: View, n: nat) {
    |v.g| == |v.b| == n
  }

  function NextView(v: View, h: nat, r: Fe, L: Pt, R: Pt): (next: View)
    requires ViewOf(v, h + h)
    ensures ViewOf(next, h)
  {
    View(PAdd(PScale(Inv(r), v.g[..h]), PScale(r, v.g[h..])), FoldB(v.b, h, r, Inv(r)),
         Plus(Plus(Smul(Mul(r, r), L), Smul(Mul(Inv(r), Inv(r)), R)), v.p))
  }

  /** The equation of all rounds is the equation of the later rounds on the folded view. */
  lemma EquationStep(r: Fe, rs: seq<Fe>, h: nat, v: View, l: Pt, m: Pt, L: seq<Pt>, R: seq<Pt>, aHat: Fe, w: Pt)
    requires r != 0 && |L| == |R| == |rs| && h == Pow2(|rs|) && ViewOf(v, h + h)
    ensures Pow2(|rs| + 1) == h + h
    ensures var next := NextView(v, h, r, l, m);
      (Equation([r] + rs, v.g, v.b, v.p, [l] + L, [m] + R, aHat, w)
       <==> Equation(rs, next.g, next.b, next.p, L, R, aHat, w))
  {
    hide Mul, Inv, Plus, Smul, Msm, Dot, TensorVector, Squares, Invs, PAdd, PScale, VAdd, VScale, Pow2;
    Pow2Double(|rs|);
    FoldKeyTensor(r, rs, h, v.g);
    FoldBTensor(r, rs, h, v.b);
    MessagesCons(l, m, r, Rounds(Argument(L, R, aHat), rs, []), v.p);
  }

  /** The view after the rounds with challenges rs, with d rounds to go. */
  function Walk(v: View, rs: seq<Fe>, L: seq<Pt>, R: seq<Pt>, d: nat): (last: View)
    requires |L| == |R| == |rs| && ViewOf(v, Pow2(|rs| + d))
    ensures ViewOf(last, Pow2(d))
    decreases |rs|
  {
    hide Pow2, NextView;
    if |rs| == 0 then v
    else
      Pow2Double(|rs| - 1 + d);
      Walk(NextView(v, Pow2(|rs| - 1 + d), rs[0], L[0], R[0]), rs[1..], L[1..], R[1..], d)
  }

  lemma {:induction false} EquationWalk(rs: seq<Fe>, v: View, L: seq<Pt>, R: seq<Pt>, aHat: Fe, w: Pt)
    requires |L| == |R| == |rs| && ViewOf(v, Pow2(|rs|)) && 0 !in rs
    ensures var last := Walk(v, rs, L, R, 0);
      && Pow2(0) == 1
      && (Equation(rs, v.g, v.b, v.p, L, R, aHat, w) <==> last.p == Smul(aHat, Plus(last.g[0], Smul(last.b[0], w))))
    decreases |rs|
  {
    hide NextView, Equation, Plus, Smul, Pow2;
    assert Pow2(0) == 1 by { OneIsPow2(); }
    if |rs| == 0 {
      LastEquation(v, L, R, aHat, w);
      assert rs == [];
    } else {
      var h := Pow2(|rs| - 1);
      Pow2Double(|rs| - 1);
      assert [rs[0]] + rs[1..] == rs && [L[0]] + L[1..] == L && [R[0]] + R[1..] == R;
      EquationStep(rs[0], rs[1..], h, v, L[0], R[0], L[1..], R[1..], aHat, w);
      EquationWalk(rs[1..], NextView(v, h, rs[0], L[0], R[0]), L[1..], R[1..], aHat, w);
    }
  }

  lemma OneIsPow2()
    ensures Pow2(0) == 1
  {
  }

  lemma LastEquation(v: View, L: seq<Pt>, R: seq<Pt>, aHat: Fe, w: Pt)
    requires ViewOf(v, 1) && |L| == |R| == 0
    ensures Pow2(0) == 1
    ensures Equation([], v.g, v.b, v.p, L, R, aHat, w) <==> v.p == Smul(aHat, Plus(v.g[0], Smul(v.b[0], w)))
  {
    hide Plus, Smul, Mul, Add;
    assert TensorVector([]) == [1];
    assert L == [] && R == [];
    PlusO(O);
    PlusO(v.p);
    SmulSmall(v.g[0]);
    PlusO(v.g[0]);
    MulOne(v.b[0]);
    AddZero(v.b[0]);
    assert Msm([1], v.g) == v.g[0];
    assert Dot(v.b, [1]) == v.b[0];
  }

  lemma {:induction false} WalkSnoc(v: View, rs: seq<Fe>, L: seq<Pt>, R: seq<Pt>, d: nat, r: Fe, l: Pt, m: Pt)
    requires |L| == |R| == |rs| && ViewOf(v, Pow2(|rs| + d + 1))
    ensures Pow2(d + 1) == Pow2(d) + Pow2(d)
    ensures Walk(v, rs + [r], L + [l], R + [m], d) == NextView(Walk(v, rs, L, R, d + 1), Pow2(d), r, l, m)
    decreases |rs|
  {
    hide NextView, Pow2;
    Pow2Double(d);
    if |rs| == 0 {
      assert rs + [r] == [r] && L + [l] == [l] && R + [m] == [m];
      assert [r][1..] == [] && [l][1..] == [] && [m][1..] == [];
    } else {
      Pow2Double(|rs| + d);
      assert (rs + [r])[1..] == rs[1..] + [r] && (L + [l])[1..] == L[1..] + [l] && (R + [m])[1..] == R[1..] + [m];
      WalkSnoc(NextView(v, Pow2(|rs| + d), rs[0], L[0], R[0]), rs[1..], L[1..], R[1..], d, r, l, m);
    }
  }

  // ------------------------------------------------------------ trees of arguments

  /** Runs of the verifier that share their beginnings: after each pair of messages there
      are three challenges, and each run ends with its own last scalar and oracle. */
  datatype Tree =
    | Leaf(aHat: Fe, f: Oracle<Msg>)
    | Node(L: Pt, R: Pt, r0: Fe, t0: Tree, r1: Fe, t1: Tree, r2: Fe, t2: Tree)

  predicate DifferentSquares(r0: Fe, r1: Fe, r2: Fe) {
    Mul(r0, r0) != Mul(r1, r1) && Mul(r0, r0) != Mul(r2, r2) && Mul(r1, r1) != Mul(r2, r2)
  }

  /** All runs have d rounds, and the squares of the challenges after a message differ. */
  predicate Full(t: Tree, d: nat) {
    match t
    case Leaf(_, _) => d == 0
    case Node(_, _, r0, t0, r1, t1, r2, t2) =>
      d > 0 && Full(t0, d - 1) && Full(t1, d - 1) && Full(t2, d - 1) && DifferentSquares(r0, r1, r2)
  }

  /** A vector of twice the length whose fold with r is opened by a. */
  function Unfold(a: Vec, r: Fe): (e: Vec)
    ensures |e| == |a| + |a|
  {
    VScale(Inv(r), a) + VScale(r, a)
  }

  /** The weights that read the middle coefficient off three values of a quadratic. */
  function Weight(x0: Fe, x1: Fe, x2: Fe, i: nat): Fe
    requires i < 3
  {
    Interpolation.Extractor([x0, x1, x2], 1)[i]
  }

  /** The vector before a round, from the vectors that met its three challenges. */
  function Middle(h: nat, a0: Vec, a1: Vec, a2: Vec, r0: Fe, r1: Fe, r2: Fe): (a: Vec)
    requires |a0| == |a1| == |a2| == h
    ensures |a| == h + h
  {
    var (x0, x1, x2) := (Mul(r0, r0), Mul(r1, r1), Mul(r2, r2));
    VAdd(VAdd(VScale(Mul(Weight(x0, x1, x2, 0), x0), Unfold(a0, r0)),
              VScale(Mul(Weight(x0, x1, x2, 1), x1), Unfold(a1, r1))),
         VScale(Mul(Weight(x0, x1, x2, 2), x2), Unfold(a2, r2)))
  }

  /** The committed vector, from the challenges and the last scalars alone. */
  function Extract(t: Tree, d: nat): (a: Vec)
    requires Full(t, d)
    ensures |a| == Pow2(d)
  {
    hide Middle;
    match t
    case Leaf(aHat, _) => [aHat]
    case Node(_, _, r0, t0, r1, t1, r2, t2) =>
      Middle(Pow2(d - 1), Extract(t0, d - 1), Extract(t1, d - 1), Extract(t2, d - 1), r0, r1, r2)
  }

  /** All runs of the tree satisfy the last equation on the view they come to. */
  predicate Holds(t: Tree, d: nat, v: View, w: Pt)
    requires Full(t, d) && ViewOf(v, Pow2(d))
  {
    hide NextView, Plus, Smul, DifferentSquares;
    match t
    case Leaf(aHat, _) => v.p == Smul(aHat, Plus(v.g[0], Smul(v.b[0], w)))
    case Node(L, R, r0, t0, r1, t1, r2, t2) =>
      var h := Pow2(d - 1);
      && r0 != 0 && r1 != 0 && r2 != 0
      && Holds(t0, d - 1, NextView(v, h, r0, L, R), w) && Holds(t1, d - 1, NextView(v, h, r1, L, R), w)
      && Holds(t2, d - 1, NextView(v, h, r2, L, R), w)
  }

  lemma ClaimAdd(a: Vec, c: Vec, b: Vec, g: seq<Pt>, w: Pt)
    requires |a| == |c| == |b| == |g|
    ensures Claim(VAdd(a, c), b, g, w) == Plus(Claim(a, b, g, w), Claim(c, b, g, w))
  {
    hide Plus, Smul, Msm, Dot, VAdd, Add;
    MsmAddScalars(a, c, g);
    DotAddLeft(a, c, b);
    SmulFAdd(Dot(a, b), Dot(c, b), w);
    PlusSwap(Msm(a, g), Msm(c, g), Smul(Dot(a, b), w), Smul(Dot(c, b), w));
  }

  lemma ClaimScale(k: Fe, a: Vec, b: Vec, g: seq<Pt>, w: Pt)
    requires |a| == |b| == |g|
    ensures Claim(VScale(k, a), b, g, w) == Smul(k, Claim(a, b, g, w))
  {
    hide Plus, Smul, Msm, Dot, VScale, Mul;
    MsmScaleScalars(k, a, g);
    DotScaleLeft(k, a, b);
    SmulFMul(k, Dot(a, b), w);
    SmulPlus(k, Msm(a, g), Smul(Dot(a, b), w));
  }

  /** An opening of the folded view is an opening by the unfolded vector. */
  lemma ClaimUnfold(a: Vec, h: nat, v: View, r: Fe, L: Pt, R: Pt, w: Pt)
    requires |a| == h && ViewOf(v, h + h)
    ensures var next := NextView(v, h, r, L, R);
      Claim(a, next.b, next.g, w) == Claim(Unfold(a, r), v.b, v.g, w)
  {
    hide Claim, Mul, Plus, Smul, Msm, Dot, NextView, Unfold, VAdd, VScale, PAdd, PScale, Inv;
    var (s, gL, gR, bL, bR) := (Inv(r), v.g[..h], v.g[h..], v.b[..h], v.b[h..]);
    NextViewIs(v, h, r, L, R);
    UnfoldIs(a, r);
    assert v.g == gL + gR && v.b == bL + bR;
    MsmAddPoints(a, PScale(s, gL), PScale(r, gR));
    MsmScalePoints(s, a, gL);
    MsmScalePoints(r, a, gR);
    MsmConcat(VScale(s, a), VScale(r, a), gL, gR);
    MsmScaleScalars(s, a, gL);
    MsmScaleScalars(r, a, gR);
    DotAddRight(a, VScale(s, bL), VScale(r, bR));
    DotScaleRight(s, a, bL);
    DotScaleRight(r, a, bR);
    DotConcat(VScale(s, a), VScale(r, a), bL, bR);
    DotScaleLeft(s, a, bL);
    DotScaleLeft(r, a, bR);
    ClaimIs(a, NextView(v, h, r, L, R).b, NextView(v, h, r, L, R).g, w);
    ClaimIs(Unfold(a, r), v.b, v.g, w);
  }

  lemma ClaimIs(a: Vec, b: Vec, g: seq<Pt>, w: Pt)
    requires |a| == |b| == |g|
    ensures Claim(a, b, g, w) == Plus(Msm(a, g), Smul(Dot(a, b), w))
  {
  }

  lemma UnfoldIs(a: Vec, r: Fe)
    ensures Unfold(a, r) == VScale(Inv(r), a) + VScale(r, a)
  {
  }

  lemma NextViewIs(v: View, h: nat, r: Fe, L: Pt, R: Pt)
    requires ViewOf(v, h + h)
    ensures var next := NextView(v, h, r, L, R);
      && next.g == PAdd(PScale(Inv(r), v.g[..h]), PScale(r, v.g[h..]))
      && next.b == VAdd(VScale(Inv(r), v.b[..h]), VScale(r, v.b[h..]))
      && next.p == Plus(Plus(Smul(Mul(r, r), L), Smul(Mul(Inv(r), Inv(r)), R)), v.p)
  {
    hide Inv, Mul, Plus, Smul;
  }

  /** The point of the folded view, times the squared challenge, is a quadratic in it. */
  lemma RoundIsBatch(L: Pt, R: Pt, p: Pt, r: Fe)
    requires r != 0
    ensures Smul(Mul(r, r), Plus(Plus(Smul(Mul(r, r), L), Smul(Mul(Inv(r), Inv(r)), R)), p))
         == Msm(Geometric(1, Mul(r, r), 3), [R, p, L])
  {
    hide Plus, Smul, Mul, Inv, Msm, Geometric;
    var x := Mul(r, r);
    MulInv(r);
    MulSwap(r, r, Inv(r), Inv(r));
    MulOne(1);
    SmulPlus(x, Plus(Smul(x, L), Smul(Mul(Inv(r), Inv(r)), R)), p);
    SmulPlus(x, Smul(x, L), Smul(Mul(Inv(r), Inv(r)), R));
    SmulFMul(x, Mul(Inv(r), Inv(r)), R);
    SmulSmall(R);
    SmulFMul(x, x, L);
    ThreePowers(x, R, p, L);
    PlusComm(Smul(Mul(x, x), L), R);
    PlusAssoc(R, Smul(Mul(x, x), L), Smul(x, p));
    PlusComm(Smul(Mul(x, x), L), Smul(x, p));
  }

  lemma ThreePowers(x: Fe, a: Pt, b: Pt, c: Pt)
    ensures Msm(Geometric(1, x, 3), [a, b, c]) == Plus(a, Plus(Smul(x, b), Smul(Mul(x, x), c)))
  {
    hide Plus, Smul, Mul, Msm;
    MulOne(x);
    assert Geometric(1, x, 3) == [1] + ([x] + ([Mul(x, x)] + []));
    assert [a, b, c] == [a] + ([b] + ([c] + []));
    ThreeTerms(1, x, Mul(x, x), a, b, c);
    SmulSmall(a);
  }

  lemma ThreeTerms(k: Fe, l: Fe, m: Fe, a: Pt, b: Pt, c: Pt)
    ensures Msm([k] + ([l] + ([m] + [])), [a] + ([b] + ([c] + []))) == Plus(Smul(k, a), Plus(Smul(l, b), Smul(m, c)))
  {
    hide Plus, Smul;
    MsmCons(m, [], c, []);
    MsmCons(l, [m] + [], b, [c] + []);
    MsmCons(k, [l] + ([m] + []), a, [b] + ([c] + []));
    PlusO(Smul(m, c));
  }

  /** The middle point from the three quadratics. */
  lemma MiddlePoint(L: Pt, R: Pt, p: Pt, x0: Fe, x1: Fe, x2: Fe, q0: Pt, q1: Pt, q2: Pt)
    requires x0 != x1 && x0 != x2 && x1 != x2
    requires Smul(x0, q0) == Msm(Geometric(1, x0, 3), [R, p, L])
    requires Smul(x1, q1) == Msm(Geometric(1, x1, 3), [R, p, L])
    requires Smul(x2, q2) == Msm(Geometric(1, x2, 3), [R, p, L])
    ensures p == Plus(Plus(Smul(Mul(Weight(x0, x1, x2, 0), x0), q0), Smul(Mul(Weight(x0, x1, x2, 1), x1), q1)),
                      Smul(Mul(Weight(x0, x1, x2, 2), x2), q2))
  {
    hide Plus, Smul, Mul, Msm, Geometric, Interpolation.Extractor;
    var (qs, pts) := ([x0, x1, x2], [R, p, L]);
    var s := Interpolation.Extractor(qs, 1);
    ExtractPoint(qs, pts, 1);
    assert Batches(pts, qs) == [Smul(x0, q0), Smul(x1, q1), Smul(x2, q2)];
    assert s == [s[0]] + ([s[1]] + ([s[2]] + []));
    assert Batches(pts, qs) == [Smul(x0, q0)] + ([Smul(x1, q1)] + ([Smul(x2, q2)] + []));
    ThreeTerms(s[0], s[1], s[2], Smul(x0, q0), Smul(x1, q1), Smul(x2, q2));
    SmulFMul(s[0], x0, q0);
    SmulFMul(s[1], x1, q1);
    SmulFMul(s[2], x2, q2);
    PlusAssoc(Smul(Mul(s[0], x0), q0), Smul(Mul(s[1], x1), q1), Smul(Mul(s[2], x2), q2));
  }

  /** The extracted vector opens the view: three challenges with different squares after
      each pair of messages are enough. */
  lemma {:induction false} ExtractOpens(t: Tree, d: nat, v: View, w: Pt)
    requires Full(t, d) && ViewOf(v, Pow2(d)) && Holds(t, d, v, w)
    ensures v.p == Claim(Extract(t, d), v.b, v.g, w)
    decreases d, 0
  {
    hide *;
    OneIsPow2();
    match t {
      case Leaf(aHat, _) =>
        LeafUnfold(aHat, t.f, d, v, w);
        LeafOpens(aHat, v, w);
      case Node(L, R, r0, t0, r1, t1, r2, t2) =>
        NodeUnfold(L, R, r0, t0, r1, t1, r2, t2, d, v, w);
        KidOpens(t0, d - 1, v, L, R, r0, w);
        KidOpens(t1, d - 1, v, L, R, r1, w);
        KidOpens(t2, d - 1, v, L, R, r2, w);
        NodeOpens(Extract(t0, d - 1), Extract(t1, d - 1), Extract(t2, d - 1), Pow2(d - 1), v, L, R, r0, r1, r2, w);
    }
  }

  lemma LeafUnfold(aHat: Fe, f: Oracle<Msg>, d: nat, v: View, w: Pt)
    requires Full(Leaf(aHat, f), d) && ViewOf(v, Pow2(d)) && Holds(Leaf(aHat, f), d, v, w)
    ensures d == 0 && ViewOf(v, 1) && v.p == Smul(aHat, Plus(v.g[0], Smul(v.b[0], w)))
    ensures Extract(Leaf(aHat, f), d) == [aHat]
  {
    hide Plus, Smul;
  }

  lemma NodeUnfold(L: Pt, R: Pt, r0: Fe, t0: Tree, r1: Fe, t1: Tree, r2: Fe, t2: Tree, d: nat, v: View, w: Pt)
    requires Full(Node(L, R, r0, t0, r1, t1, r2, t2), d) && ViewOf(v, Pow2(d))
    requires Holds(Node(L, R, r0, t0, r1, t1, r2, t2), d, v, w)
    ensures d > 0 && ViewOf(v, Pow2(d - 1) + Pow2(d - 1)) && DifferentSquares(r0, r1, r2)
    ensures Full(t0, d - 1) && Full(t1, d - 1) && Full(t2, d - 1) && r0 != 0 && r1 != 0 && r2 != 0
    ensures Holds(t0, d - 1, NextView(v, Pow2(d - 1), r0, L, R), w)
       && Holds(t1, d - 1, NextView(v, Pow2(d - 1), r1, L, R), w)
    ensures Holds(t2, d - 1, NextView(v, Pow2(d - 1), r2, L, R), w)
    ensures Extract(Node(L, R, r0, t0, r1, t1, r2, t2), d)
         == Middle(Pow2(d - 1), Extract(t0, d - 1), Extract(t1, d - 1), Extract(t2, d - 1), r0, r1, r2)
  {
    hide NextView, Plus, Smul, Middle, DifferentSquares;
  }

  lemma KidOpens(t: Tree, d: nat, v: View, L: Pt, R: Pt, r: Fe, w: Pt)
    requires Full(t, d) && ViewOf(v, Pow2(d) + Pow2(d)) && r != 0 && Holds(t, d, NextView(v, Pow2(d), r, L, R), w)
    ensures Smul(Mul(r, r), Claim(Unfold(Extract(t, d), r), v.b, v.g, w)) == Msm(Geometric(1, Mul(r, r), 3), [R, v.p, L])
    decreases d, 1
  {
    hide *;
    var h := Pow2(d);
    ExtractOpens(t, d, NextView(v, h, r, L, R), w);
    ClaimUnfold(Extract(t, d), h, v, r, L, R, w);
    NextViewIs(v, h, r, L, R);
    RoundIsBatch(L, R, v.p, r);
  }

  lemma LeafOpens(aHat: Fe, v: View, w: Pt)
    requires ViewOf(v, 1) && v.p == Smul(aHat, Plus(v.g[0], Smul(v.b[0], w)))
    ensures v.p == Claim([aHat], v.b, v.g, w)
  {
    hide Plus, Smul, Mul, Add;
    ClaimOfOne([aHat], v.b, v.g, w);
    PlusO(Smul(aHat, v.g[0]));
    AddZero(Mul(aHat, v.b[0]));
    FactorOut(aHat, v.g[0], v.b[0], w);
  }

  /** One round: three challenges with different squares that are met with openings by
      a0, a1 and a2 determine an opening of the point before the round. */
  lemma NodeOpens(a0: Vec, a1: Vec, a2: Vec, h: nat, v: View, L: Pt, R: Pt, r0: Fe, r1: Fe, r2: Fe, w: Pt)
    requires |a0| == |a1| == |a2| == h && ViewOf(v, h + h)
    requires DifferentSquares(r0, r1, r2)
    requires Smul(Mul(r0, r0), Claim(Unfold(a0, r0), v.b, v.g, w)) == Msm(Geometric(1, Mul(r0, r0), 3), [R, v.p, L])
    requires Smul(Mul(r1, r1), Claim(Unfold(a1, r1), v.b, v.g, w)) == Msm(Geometric(1, Mul(r1, r1), 3), [R, v.p, L])
    requires Smul(Mul(r2, r2), Claim(Unfold(a2, r2), v.b, v.g, w)) == Msm(Geometric(1, Mul(r2, r2), 3), [R, v.p, L])
    ensures v.p == Claim(Middle(h, a0, a1, a2, r0, r1, r2), v.b, v.g, w)
  {
    hide Claim, Mul, Plus, Smul, Msm, Geometric, Unfold, Weight, VAdd, VScale;
    var (x0, x1, x2) := (Mul(r0, r0), Mul(r1, r1), Mul(r2, r2));
    var (k0, k1, k2) := (Mul(Weight(x0, x1, x2, 0), x0), Mul(Weight(x0, x1, x2, 1), x1), Mul(Weight(x0, x1, x2, 2), x2));
    var (e0, e1, e2) := (Unfold(a0, r0), Unfold(a1, r1), Unfold(a2, r2));
    MiddlePoint(L, R, v.p, x0, x1, x2, Claim(e0, v.b, v.g, w), Claim(e1, v.b, v.g, w), Claim(e2, v.b, v.g, w));
    ClaimScale(k0, e0, v.b, v.g, w);
    ClaimScale(k1, e1, v.b, v.g, w);
    ClaimScale(k2, e2, v.b, v.g, w);
    ClaimAdd(VScale(k0, e0), VScale(k1, e1), v.b, v.g, w);
    ClaimAdd(VAdd(VScale(k0, e0), VScale(k1, e1)), VScale(k2, e2), v.b, v.g, w);
  }

  /** The verifier accepts every run of the tree, after the messages and challenges given,
      each oracle answering ch for the extra generator and the tree's challenges. */
  predicate Accepted(t: Tree, d: nat, key: Key, uKey: Key, n: nat, U: Instance, ch: Fe, L: seq<Pt>, R: seq<Pt>,
                     rs: seq<Fe>, log: Log<Msg>)
    requires Full(t, d) && |U.b| <= |key.ck| && |uKey.ck| == 1
    decreases d
  {
    hide VerifySpec, DifferentSquares, Answered;
    match t
    case Leaf(aHat, f) =>
      && f(log + [Said(DomSep), Said(AbsorbU(U.commA, U.c))]) == ch
      && Answered(f, log + [Said(DomSep), Said(AbsorbU(U.commA, U.c)), Squeezed], L, R, rs)
      && VerifySpec(key, uKey, n, U, Argument(L, R, aHat), f, log) == Outcome.Ok(())
    case Node(l, m, r0, t0, r1, t1, r2, t2) =>
      && Accepted(t0, d - 1, key, uKey, n, U, ch, L + [l], R + [m], rs + [r0], log)
      && Accepted(t1, d - 1, key, uKey, n, U, ch, L + [l], R + [m], rs + [r1], log)
      && Accepted(t2, d - 1, key, uKey, n, U, ch, L + [l], R + [m], rs + [r2], log)
  }

  /** Acceptance alone fixes the lengths and rules out zero challenges. */
  lemma {:induction false} AcceptedShape(t: Tree, d: nat, key: Key, uKey: Key, n: nat, U: Instance, ch: Fe, L: seq<Pt>,
                                         R: seq<Pt>, rs: seq<Fe>, log: Log<Msg>)
    requires Full(t, d) && |U.b| <= |key.ck| && |uKey.ck| == 1
    requires Accepted(t, d, key, uKey, n, U, ch, L, R, rs, log)
    ensures |L| == |R| == |rs| && n == |U.b| == Pow2(|rs| + d) && 0 !in rs
    decreases d
  {
    hide VerifySpec, DifferentSquares, Answered, Equation, Pow2, Smul, Plus;
    match t {
      case Leaf(aHat, f) =>
        SameCount(f, log + [Said(DomSep), Said(AbsorbU(U.commA, U.c)), Squeezed], L, R, rs);
        VerdictExactly(key, uKey, n, U, L, R, aHat, rs, f, log);
      case Node(l, m, r0, t0, r1, t1, r2, t2) =>
        AcceptedShape(t0, d - 1, key, uKey, n, U, ch, L + [l], R + [m], rs + [r0], log);
        assert |rs + [r0]| + (d - 1) == |rs| + d;
        forall i | 0 <= i < |rs| ensures rs[i] != 0 { assert (rs + [r0])[i] == rs[i]; }
    }
  }

  /** The view the verifier starts from. */
  function Start(key: Key, n: nat, U: Instance, w: Pt): View
    requires n <= |key.ck|
  {
    View(key.ck[..n], U.b, Plus(U.commA, Smul(U.c, w)))
  }

  lemma {:induction false} AcceptedHolds(t: Tree, d: nat, key: Key, uKey: Key, n: nat, U: Instance, ch: Fe, L: seq<Pt>,
                                         R: seq<Pt>, rs: seq<Fe>, log: Log<Msg>)
    requires Full(t, d) && |U.b| <= |key.ck| && |uKey.ck| == 1
    requires Accepted(t, d, key, uKey, n, U, ch, L, R, rs, log)
    ensures |L| == |R| == |rs| && n == |U.b| == Pow2(|rs| + d)
    ensures var w := Smul(ch, uKey.ck[0]); Holds(t, d, Walk(Start(key, n, U, w), rs, L, R, d), w)
    decreases d, 0
  {
    hide *;
    AcceptedShape(t, d, key, uKey, n, U, ch, L, R, rs, log);
    var w := Smul(ch, uKey.ck[0]);
    var v := Start(key, n, U, w);
    StartIs(key, n, U, w);
    match t {
      case Leaf(aHat, f) =>
        LeafHolds(aHat, f, d, key, uKey, n, U, ch, L, R, rs, log);
      case Node(l, m, r0, t0, r1, t1, r2, t2) =>
        KidsAccepted(l, m, r0, t0, r1, t1, r2, t2, d, key, uKey, n, U, ch, L, R, rs, log);
        KidHolds(t0, d - 1, key, uKey, n, U, ch, L, R, rs, l, m, r0, log);
        KidHolds(t1, d - 1, key, uKey, n, U, ch, L, R, rs, l, m, r1, log);
        KidHolds(t2, d - 1, key, uKey, n, U, ch, L, R, rs, l, m, r2, log);
        Pow2Double(d - 1);
        NodeHolds(l, m, r0, t0, r1, t1, r2, t2, d, Walk(v, rs, L, R, d), w);
    }
  }

  lemma StartIs(key: Key, n: nat, U: Instance, w: Pt)
    requires n == |U.b| <= |key.ck|
    ensures ViewOf(Start(key, n, U, w), n)
  {
    hide Plus, Smul;
  }

  lemma LeafHolds(aHat: Fe, f: Oracle<Msg>, d: nat, key: Key, uKey: Key, n: nat, U: Instance, ch: Fe, L: seq<Pt>,
                  R: seq<Pt>, rs: seq<Fe>, log: Log<Msg>)
    requires Full(Leaf(aHat, f), d) && |U.b| <= |key.ck| && |uKey.ck| == 1
    requires |L| == |R| == |rs| && n == |U.b| == Pow2(|rs| + d) && 0 !in rs
    requires Accepted(Leaf(aHat, f), d, key, uKey, n, U, ch, L, R, rs, log)
    ensures var w := Smul(ch, uKey.ck[0]);
      && ViewOf(Start(key, n, U, w), Pow2(|rs| + d))
      && Holds(Leaf(aHat, f), d, Walk(Start(key, n, U, w), rs, L, R, d), w)
  {
    hide VerifySpec, Answered, Equation, Pow2, Smul, Plus, Walk;
    VerdictExactly(key, uKey, n, U, L, R, aHat, rs, f, log);
    var w := Smul(ch, uKey.ck[0]);
    EquationWalk(rs, Start(key, n, U, w), L, R, aHat, w);
  }

  lemma KidsAccepted(l: Pt, m: Pt, r0: Fe, t0: Tree, r1: Fe, t1: Tree, r2: Fe, t2: Tree, d: nat, key: Key, uKey: Key,
                     n: nat, U: Instance, ch: Fe, L: seq<Pt>, R: seq<Pt>, rs: seq<Fe>, log: Log<Msg>)
    requires Full(Node(l, m, r0, t0, r1, t1, r2, t2), d) && |U.b| <= |key.ck| && |uKey.ck| == 1
    requires Accepted(Node(l, m, r0, t0, r1, t1, r2, t2), d, key, uKey, n, U, ch, L, R, rs, log)
    ensures d > 0 && Full(t0, d - 1) && Full(t1, d - 1) && Full(t2, d - 1)
    ensures Accepted(t0, d - 1, key, uKey, n, U, ch, L + [l], R + [m], rs + [r0], log)
    ensures Accepted(t1, d - 1, key, uKey, n, U, ch, L + [l], R + [m], rs + [r1], log)
    ensures Accepted(t2, d - 1, key, uKey, n, U, ch, L + [l], R + [m], rs + [r2], log)
  {
    hide DifferentSquares;
  }

  lemma KidHolds(t: Tree, d: nat, key: Key, uKey: Key, n: nat, U: Instance, ch: Fe, L: seq<Pt>, R: seq<Pt>, rs: seq<Fe>,
                 l: Pt, m: Pt, r: Fe, log: Log<Msg>)
    requires Full(t, d) && |U.b| <= |key.ck| && |uKey.ck| == 1
    requires |L| == |R| == |rs| && n == |U.b| == Pow2(|rs| + (d + 1))
    requires Accepted(t, d, key, uKey, n, U, ch, L + [l], R + [m], rs + [r], log)
    ensures r != 0 && Pow2(d + 1) == Pow2(d) + Pow2(d)
    ensures var w := Smul(ch, uKey.ck[0]);
      && ViewOf(Start(key, n, U, w), Pow2(|rs| + (d + 1)))
      && Holds(t, d, NextView(Walk(Start(key, n, U, w), rs, L, R, d + 1), Pow2(d), r, l, m), w)
    decreases d, 1
  {
    hide *;
    var w := Smul(ch, uKey.ck[0]);
    StartIs(key, n, U, w);
    AcceptedShape(t, d, key, uKey, n, U, ch, L + [l], R + [m], rs + [r], log);
    assert (rs + [r])[|rs|] == r;
    AcceptedHolds(t, d, key, uKey, n, U, ch, L + [l], R + [m], rs + [r], log);
    assert |rs| + d + 1 == |rs| + (d + 1);
    WalkSnoc(Start(key, n, U, w), rs, L, R, d, r, l, m);
  }

  lemma NodeHolds(l: Pt, m: Pt, r0: Fe, t0: Tree, r1: Fe, t1: Tree, r2: Fe, t2: Tree, d: nat, v: View, w: Pt)
    requires Full(Node(l, m, r0, t0, r1, t1, r2, t2), d) && ViewOf(v, Pow2(d))
    requires d > 0 && Pow2(d) == Pow2(d - 1) + Pow2(d - 1) && r0 != 0 && r1 != 0 && r2 != 0
    requires Full(t0, d - 1) && Full(t1, d - 1) && Full(t2, d - 1)
    requires Holds(t0, d - 1, NextView(v, Pow2(d - 1), r0, l, m), w)
       && Holds(t1, d - 1, NextView(v, Pow2(d - 1), r1, l, m), w)
    requires Holds(t2, d - 1, NextView(v, Pow2(d - 1), r2, l, m), w)
    ensures Holds(Node(l, m, r0, t0, r1, t1, r2, t2), d, v, w)
  {
    hide NextView, Plus, Smul, DifferentSquares;
  }

  /** From a tree of accepted arguments for one instance and one extra generator: the
      lengths fit, and the vector computed from the challenges and last scalars opens
      the commitment and the claim together. */
  lemma TreeOpens(t: Tree, d: nat, key: Key, uKey: Key, n: nat, U: Instance, ch: Fe, log: Log<Msg>)
    requires Full(t, d) && |U.b| <= |key.ck| && |uKey.ck| == 1
    requires Accepted(t, d, key, uKey, n, U, ch, [], [], [], log)
    ensures n == |U.b| == Pow2(d)
    ensures var w := Smul(ch, uKey.ck[0]);
      Plus(U.commA, Smul(U.c, w)) == Claim(Extract(t, d), U.b, key.ck[..n], w)
  {
    hide Full, Accepted, Extract, Claim, Plus, Smul, Pow2, Holds;
    var w := Smul(ch, uKey.ck[0]);
    AcceptedHolds(t, d, key, uKey, n, U, ch, [], [], [], log);
    var none: seq<Fe> := [];
    assert |none| + d == d;
    ExtractOpens(t, d, Start(key, n, U, w), w);
  }

  /** commA as a combination of the generators and the extra one. */
  lemma SplitClaim(U: Instance, a: Vec, g: seq<Pt>, u: Pt, ch: Fe)
    requires |a| == |U.b| == |g|
    requires Plus(U.commA, Smul(U.c, Smul(ch, u))) == Claim(a, U.b, g, Smul(ch, u))
    ensures U.commA == Plus(Msm(a, g), Smul(Mul(Sub(Dot(a, U.b), U.c), ch), u))
  {
    hide *;
    var (w, z) := (Smul(ch, u), Dot(a, U.b));
    ClaimIs(a, U.b, g, w);
    SmulFMul(Sub(z, U.c), ch, u);
    SmulFSub(z, U.c, w);
    AddOff(U.commA, Smul(U.c, w), Msm(a, g), Smul(z, w));
  }

  lemma AddOff(p: Pt, x: Pt, q: Pt, y: Pt)
    requires Plus(p, x) == Plus(q, y)
    ensures p == Plus(q, Minus(y, x))
  {
    hide Plus, Opp;
    PlusAssoc(p, x, Opp(x));
    PlusOpp(x);
    PlusO(p);
    PlusAssoc(q, y, Opp(x));
  }

  /** Two trees for the same instance under different extra generators: commA is a
      combination of the key's generators and uKey's one with the coefficients (a, t), and
      with the coefficients (a', t'), all computed from challenges and last scalars.  Unless
      these are two different combinations for one point, the claimed value is the inner
      product and commA commits to the extracted vector. */
  lemma TwoTrees(t1: Tree, t2: Tree, d: nat, key: Key, uKey: Key, n: nat, U: Instance, ch1: Fe, ch2: Fe, log: Log<Msg>)
    requires Full(t1, d) && Full(t2, d) && |U.b| <= |key.ck| && |uKey.ck| == 1 && ch1 != ch2
    requires Accepted(t1, d, key, uKey, n, U, ch1, [], [], [], log)
       && Accepted(t2, d, key, uKey, n, U, ch2, [], [], [], log)
    ensures n == |U.b| == Pow2(d)
    ensures var (a1, a2) := (Extract(t1, d), Extract(t2, d));
      var (s1, s2) := (Mul(Sub(Dot(a1, U.b), U.c), ch1), Mul(Sub(Dot(a2, U.b), U.c), ch2));
      && U.commA == Plus(Msm(a1, key.ck[..n]), Smul(s1, uKey.ck[0]))
      && U.commA == Plus(Msm(a2, key.ck[..n]), Smul(s2, uKey.ck[0]))
      && (a1 == a2 && s1 == s2 ==> U.c == Dot(a1, U.b) && U.commA == Commit(key, a1, 0))
  {
    hide Full, Accepted, Extract, Claim, Plus, Smul, Pow2, Msm, Dot, Mul, Sub, Commit;
    TreeOpens(t1, d, key, uKey, n, U, ch1, log);
    TreeOpens(t2, d, key, uKey, n, U, ch2, log);
    var (a1, a2) := (Extract(t1, d), Extract(t2, d));
    SplitClaim(U, a1, key.ck[..n], uKey.ck[0], ch1);
    SplitClaim(U, a2, key.ck[..n], uKey.ck[0], ch2);
    var e := Sub(Dot(a1, U.b), U.c);
    if a1 == a2 && Mul(e, ch1) == Mul(e, ch2) {
      MulComm(e, ch1);
      MulComm(e, ch2);
      if e != 0 { MulCancel(ch1, ch2, e); }
      SubIsZero(Dot(a1, U.b), U.c);
      MulOne(ch1);
      SmulSmall(uKey.ck[0]);
      PlusO(Msm(a1, key.ck[..n]));
      CommitPlain(key, a1);
    }
  }
}
