/** What an accepted HyperKZG argument guarantees, however it was made: the batched
    pairing check is a quadratic in the last challenge with the three openings as its
    coefficients, the openings are polynomials in the second one, and the folding chain
    is decided by enough values of the first one.  The transcripts are written out. */
module HyperKzgSoundness {
  import opened PrimeField
  import opened FieldLaws
  import opened PrimeGroup
  import opened Vectors
  import opened Pedersen
  import opened PowersOfTwo
  import opened Polynomials
  import opened Interpolation
  import opened PointExtraction
  import opened Transcripts
  import opened HyperKzg

  // ----------------------------------------------- parabolas in the last challenge

  lemma ParabolaAdd(a: Pt, b: Pt, c: Pt, a': Pt, b': Pt, c': Pt, d: Fe)
    ensures Parabola(Plus(a, a'), Plus(b, b'), Plus(c, c'), d) == Plus(Parabola(a, b, c, d), Parabola(a', b', c', d))
  {
    hide Plus, Smul, Mul;
    SmulPlus(d, b, b');
    SmulPlus(Mul(d, d), c, c');
    PlusSwap(a, a', Smul(d, b), Smul(d, b'));
    PlusSwap(Plus(a, Smul(d, b)), Plus(a', Smul(d, b')), Smul(Mul(d, d), c), Smul(Mul(d, d), c'));
  }

  lemma ParabolaMinus(a: Pt, b: Pt, c: Pt, a': Pt, b': Pt, c': Pt, d: Fe)
    ensures Parabola(Minus(a, a'), Minus(b, b'), Minus(c, c'), d) == Minus(Parabola(a, b, c, d), Parabola(a', b', c', d))
  {
    hide Plus, Smul, Mul, Minus;
    SmulMinus(d, b, b');
    SmulMinus(Mul(d, d), c, c');
    MinusSwap(a, Smul(d, b), a', Smul(d, b'));
    MinusSwap(Plus(a, Smul(d, b)), Smul(Mul(d, d), c), Plus(a', Smul(d, b')), Smul(Mul(d, d), c'));
  }

  lemma ParabolaScale(k: Fe, a: Pt, b: Pt, c: Pt, d: Fe)
    ensures Parabola(Smul(k, a), Smul(k, b), Smul(k, c), d) == Smul(k, Parabola(a, b, c, d))
  {
    hide Plus, Smul, Mul;
    SmulPlus(k, Plus(a, Smul(d, b)), Smul(Mul(d, d), c));
    SmulPlus(k, a, Smul(d, b));
    Exchange(k, d, b);
    Exchange(k, Mul(d, d), c);
  }

  lemma Exchange(k: Fe, d: Fe, a: Pt)
    ensures Smul(k, Smul(d, a)) == Smul(d, Smul(k, a))
  {
    hide *;
    SmulFMul(k, d, a);
    SmulFMul(d, k, a);
    MulComm(k, d);
  }

  lemma ParabolaOfScalars(x: Fe, y: Fe, z: Fe, g: Pt, d: Fe)
    ensures Parabola(Smul(x, g), Smul(y, g), Smul(z, g), d) == Smul(Add(Add(x, Mul(d, y)), Mul(Mul(d, d), z)), g)
  {
    hide Plus, Smul, Mul, Add;
    SmulFMul(d, y, g);
    SmulFMul(Mul(d, d), z, g);
    SmulFAdd(x, Mul(d, y), g);
    SmulFAdd(Add(x, Mul(d, y)), Mul(Mul(d, d), z), g);
  }

  lemma ParabolaSame(a: Pt, d: Fe)
    ensures Parabola(a, a, a, d) == Smul(Add(Add(1, d), Mul(d, d)), a)
  {
    hide Plus, Smul, Mul, Add;
    SmulSmall(a);
    SmulFAdd(1, d, a);
    SmulFAdd(Add(1, d), Mul(d, d), a);
  }

  // ------------------------------------------------------ the equation of the check

  /** By how much a witness w fails to open the commitment c to the value b at u. */
  function Opening(c: Pt, b: Fe, u: Fe, w: Pt, g: Pt, tau: Fe): Pt {
    Minus(Plus(Minus(c, Smul(b, g)), Smul(u, w)), Smul(tau, w))
  }

  lemma OpeningIsO(c: Pt, b: Fe, u: Fe, w: Pt, g: Pt, tau: Fe)
    ensures Opening(c, b, u, w, g, tau) == O <==> Plus(Minus(c, Smul(b, g)), Smul(u, w)) == Smul(tau, w)
  {
    hide Plus, Minus, Smul;
    MinusIsO(Plus(Minus(c, Smul(b, g)), Smul(u, w)), Smul(tau, w));
  }

  lemma MsmTwo(a: Fe, b: Fe, p: Pt, q: Pt)
    ensures Msm([a, b], [p, q]) == Plus(Smul(a, p), Smul(b, q))
  {
    hide Smul, Plus;
    assert [a, b] == [a] + ([b] + []) && [p, q] == [p] + ([q] + []);
    MsmCons(b, [], q, []);
    MsmCons(a, [b] + [], p, [q] + []);
    PlusO(Smul(b, q));
  }

  lemma MsmFour(a: Fe, b: Fe, c: Fe, e: Fe, p: Pt, q: Pt, s: Pt, t: Pt)
    ensures Msm([a, b, c, e], [p, q, s, t]) == Plus(Plus(Plus(Smul(a, p), Smul(b, q)), Smul(c, s)), Smul(e, t))
  {
    hide Smul, Plus, Msm;
    assert [a, b, c, e] == [a, b] + [c, e] && [p, q, s, t] == [p, q] + [s, t];
    MsmConcat([a, b], [c, e], [p, q], [s, t]);
    MsmTwo(a, b, p, q);
    MsmTwo(c, e, s, t);
    PlusAssoc(Plus(Smul(a, p), Smul(b, q)), Smul(c, s), Smul(e, t));
  }

  /** The witnesses at their points and the values, as the last four terms of the check. */
  lemma TailIs(w: Witnesses, g: Pt, r: Fe, d: Fe, values: Fe)
    ensures Msm([r, Mul(Neg(r), d), Mul(Mul(r, r), Mul(d, d)), Neg(values)], [w.w0, w.w1, w.w2, g])
         == Minus(Parabola(Smul(r, w.w0), Smul(Neg(r), w.w1), Smul(Mul(r, r), w.w2), d), Smul(values, g))
  {
    hide Smul, Plus, Mul, Neg, Msm, Opp;
    MsmFour(r, Mul(Neg(r), d), Mul(Mul(r, r), Mul(d, d)), Neg(values), w.w0, w.w1, w.w2, g);
    SmulFMul(Neg(r), d, w.w1);
    Exchange(Neg(r), d, w.w1);
    SmulFMul(Mul(r, r), Mul(d, d), w.w2);
    Exchange(Mul(r, r), Mul(d, d), w.w2);
    NegScalar(values, g);
  }

  lemma NegScalar(k: Fe, g: Pt)
    ensures Smul(Neg(k), g) == Opp(Smul(k, g))
  {
    hide *;
    NegIs(k);
    SmulFSub(0, k, g);
    SmulSmall(g);
    PlusO(Opp(Smul(k, g)));
    MinusFromO(Smul(k, g));
  }

  lemma MinusFromO(a: Pt)
    ensures Minus(O, a) == Plus(O, Opp(a))
  {
  }

  function Batch(C: Pt, com: seq<Pt>, q: Fe): Pt {
    Msm(Geometric(1, q, |com| + 1), [C] + com)
  }

  lemma LeftSideIs(C: Pt, com: seq<Pt>, w: Witnesses, v: seq<Triple>, g: Pt, r: Fe, q: Fe, d: Fe)
    requires |v| == |com| + 1
    ensures LeftSide(C, Argument(com, w, v), g, r, q, d)
         == Plus(Smul(Add(Add(1, d), Mul(d, d)), Batch(C, com, q)),
                 Minus(Parabola(Smul(r, w.w0), Smul(Neg(r), w.w1), Smul(Mul(r, r), w.w2), d),
                       Smul(Add(Add(Eval(Column(v, 0), q), Mul(d, Eval(Column(v, 1), q))),
                                Mul(Mul(d, d), Eval(Column(v, 2), q))), g)))
  {
    hide Smul, Plus, Mul, Add, Neg, Msm, Minus, Parabola, Geometric, Eval, Column;
    var values := Add(Add(Eval(Column(v, 0), q), Mul(d, Eval(Column(v, 1), q))), Mul(Mul(d, d), Eval(Column(v, 2), q)));
    var m := Add(Add(1, d), Mul(d, d));
    var tail: Vec := [r, Mul(Neg(r), d), Mul(Mul(r, r), Mul(d, d)), Neg(values)];
    assert [C] + com + [w.w0, w.w1, w.w2] + [g] == ([C] + com) + [w.w0, w.w1, w.w2, g];
    MsmConcat(Geometric(m, q, |v|), tail, [C] + com, [w.w0, w.w1, w.w2, g]);
    BatchScale(m, q, [C] + com);
    TailIs(w, g, r, d, values);
  }

  /** The check is a parabola in d through the three openings of the batch. */
  lemma CheckIsParabola(C: Pt, com: seq<Pt>, w: Witnesses, v: seq<Triple>, g: Pt, tau: Fe, r: Fe, q: Fe, d: Fe)
    requires |v| == |com| + 1
    ensures var B := Batch(C, com, q);
      Minus(LeftSide(C, Argument(com, w, v), g, r, q, d), Smul(tau, RightSide(w, d)))
      == Parabola(Opening(B, Eval(Column(v, 0), q), r, w.w0, g, tau),
                  Opening(B, Eval(Column(v, 1), q), Neg(r), w.w1, g, tau),
                  Opening(B, Eval(Column(v, 2), q), Mul(r, r), w.w2, g, tau), d)
  {
    hide Smul, Plus, Mul, Add, Neg, Minus, Parabola, Eval, Column, LeftSide, RightSide, Batch;
    var B := Batch(C, com, q);
    var (b0, b1, b2) := (Eval(Column(v, 0), q), Eval(Column(v, 1), q), Eval(Column(v, 2), q));
    var s := Mul(r, r);
    LeftSideIs(C, com, w, v, g, r, q, d);
    var values := Add(Add(b0, Mul(d, b1)), Mul(Mul(d, d), b2));
    ParabolaMinus(Plus(Minus(B, Smul(b0, g)), Smul(r, w.w0)), Plus(Minus(B, Smul(b1, g)), Smul(Neg(r), w.w1)),
                  Plus(Minus(B, Smul(b2, g)), Smul(s, w.w2)), Smul(tau, w.w0), Smul(tau, w.w1), Smul(tau, w.w2), d);
    ParabolaAdd(Minus(B, Smul(b0, g)), Minus(B, Smul(b1, g)), Minus(B, Smul(b2, g)),
                Smul(r, w.w0), Smul(Neg(r), w.w1), Smul(s, w.w2), d);
    ParabolaMinus(B, B, B, Smul(b0, g), Smul(b1, g), Smul(b2, g), d);
    ParabolaSame(B, d);
    ParabolaOfScalars(b0, b1, b2, g, d);
    ParabolaScale(tau, w.w0, w.w1, w.w2, d);
    RightSideIs(w, d);
    Regroup(Smul(Add(Add(1, d), Mul(d, d)), B), Parabola(Smul(r, w.w0), Smul(Neg(r), w.w1), Smul(s, w.w2), d),
            Smul(values, g));
  }

  lemma RightSideIs(w: Witnesses, d: Fe)
    ensures RightSide(w, d) == Parabola(w.w0, w.w1, w.w2, d)
  {
    hide Smul, Plus, Mul;
  }

  lemma Regroup(a: Pt, b: Pt, c: Pt)
    ensures Plus(a, Minus(b, c)) == Plus(Minus(a, c), b)
  {
    hide Plus, Opp;
    PlusComm(b, Opp(c));
    PlusAssoc(a, Opp(c), b);
  }

  // ------------------------------------------------------------- one run, exactly

  /** For every argument, honest or not: the verdict, with the openings of the batch
      combined by d. */
  lemma VerdictExactly(g: Pt, tau: Fe, C: Pt, xs: Vec, y: Fe, com: seq<Pt>, w: Witnesses, v: seq<Triple>,
                       oracle: Oracle<Msg>, log: Log<Msg>)
    requires |xs| >= 1
    ensures var o := VerifySpec(g, tau, C, xs, y, Argument(com, w, v), oracle, log);
      var r := oracle(log + [Said(AbsorbC(com))]);
      var q := oracle(log + [Said(AbsorbC(com)), Squeezed, Said(AbsorbV(v))]);
      var d := oracle(log + [Said(AbsorbC(com)), Squeezed, Said(AbsorbV(v)), Squeezed, Said(AbsorbW(w))]);
      var fits := |v| == |xs| && |com| == |xs| - 1;
      && (o == InvalidLengths <==> !fits)
      && (o == InconsistentValues <==> fits && !ChainHolds(r, xs, v, y))
      && (o == Accepted <==>
            (&& fits && ChainHolds(r, xs, v, y)
             && Parabola(Opening(Batch(C, com, q), Eval(Column(v, 0), q), r, w.w0, g, tau),
                         Opening(Batch(C, com, q), Eval(Column(v, 1), q), Neg(r), w.w1, g, tau),
                         Opening(Batch(C, com, q), Eval(Column(v, 2), q), Mul(r, r), w.w2, g, tau), d) == O))
  {
    hide Smul, Mul, Neg, Minus, Parabola, Eval, Column, LeftSide, RightSide, Batch, Opening, ChainHolds;
    LogsWritten(com, w, v, log);
    if |v| == |xs| && |com| == |xs| - 1 {
      var r := oracle(LogR(com, log));
      var q := oracle(LogQ(com, v, log));
      var d := oracle(LogD(com, v, w, log));
      CheckIsParabola(C, com, w, v, g, tau, r, q, d);
      MinusIsO(LeftSide(C, Argument(com, w, v), g, r, q, d), Smul(tau, RightSide(w, d)));
    }
  }

  lemma LogsWritten(com: seq<Pt>, w: Witnesses, v: seq<Triple>, log: Log<Msg>)
    ensures LogR(com, log) == log + [Said(AbsorbC(com))]
    ensures LogQ(com, v, log) == log + [Said(AbsorbC(com)), Squeezed, Said(AbsorbV(v))]
    ensures LogD(com, v, w, log) == log + [Said(AbsorbC(com)), Squeezed, Said(AbsorbV(v)), Squeezed, Said(AbsorbW(w))]
  {
  }

  // -------------------------------------------- three answers at the last challenge

  /** Three continuations of the transcript after the witnesses. */
  datatype Fork = Fork(f: Oracle<Msg>, g: Oracle<Msg>, h: Oracle<Msg>)

  /** All three answer r and q, and then differ. */
  predicate Forks(k: Fork, com: seq<Pt>, w: Witnesses, v: seq<Triple>, log: Log<Msg>, r: Fe, q: Fe) {
    var logR := log + [Said(AbsorbC(com))];
    var logQ := log + [Said(AbsorbC(com)), Squeezed, Said(AbsorbV(v))];
    var logD := log + [Said(AbsorbC(com)), Squeezed, Said(AbsorbV(v)), Squeezed, Said(AbsorbW(w))];
    && k.f(logR) == k.g(logR) == k.h(logR) == r
    && k.f(logQ) == k.g(logQ) == k.h(logQ) == q
    && k.f(logD) != k.g(logD) && k.f(logD) != k.h(logD) && k.g(logD) != k.h(logD)
  }

  predicate AllAccept(k: Fork, g: Pt, tau: Fe, C: Pt, xs: Vec, y: Fe, arg: Argument, log: Log<Msg>)
    requires |xs| >= 1
  {
    && VerifySpec(g, tau, C, xs, y, arg, k.f, log) == Accepted
    && VerifySpec(g, tau, C, xs, y, arg, k.g, log) == Accepted
    && VerifySpec(g, tau, C, xs, y, arg, k.h, log) == Accepted
  }

  /** For every argument: three different answers at the last challenge are all accepted
      if and only if the lengths fit, the chain holds and each of the three witnesses
      opens the batch: C_B - B(u) g + u w = tau w at u = r, -r and r^2. */
  lemma ThreeOpenings(k: Fork, g: Pt, tau: Fe, C: Pt, xs: Vec, y: Fe, com: seq<Pt>, w: Witnesses, v: seq<Triple>,
                      log: Log<Msg>, r: Fe, q: Fe)
    requires |xs| >= 1 && Forks(k, com, w, v, log, r, q)
    ensures AllAccept(k, g, tau, C, xs, y, Argument(com, w, v), log)
      <==> && |v| == |xs| && |com| == |xs| - 1 && ChainHolds(r, xs, v, y)
           && Opening(Batch(C, com, q), Eval(Column(v, 0), q), r, w.w0, g, tau) == O
           && Opening(Batch(C, com, q), Eval(Column(v, 1), q), Neg(r), w.w1, g, tau) == O
           && Opening(Batch(C, com, q), Eval(Column(v, 2), q), Mul(r, r), w.w2, g, tau) == O
  {
    hide Parabola, Opening, Batch, Eval, Column, Mul, Neg, VerifySpec, ChainHolds;
    VerdictExactly(g, tau, C, xs, y, com, w, v, k.f, log);
    VerdictExactly(g, tau, C, xs, y, com, w, v, k.g, log);
    VerdictExactly(g, tau, C, xs, y, com, w, v, k.h, log);
    var logD := log + [Said(AbsorbC(com)), Squeezed, Said(AbsorbV(v)), Squeezed, Said(AbsorbW(w))];
    ParabolaIsO(Opening(Batch(C, com, q), Eval(Column(v, 0), q), r, w.w0, g, tau),
                Opening(Batch(C, com, q), Eval(Column(v, 1), q), Neg(r), w.w1, g, tau),
                Opening(Batch(C, com, q), Eval(Column(v, 2), q), Mul(r, r), w.w2, g, tau),
                k.f(logD), k.g(logD), k.h(logD));
  }

  // ------------------------------------------ enough answers at the second challenge

  lemma OpeningAdd(c: Pt, b: Fe, w: Pt, c': Pt, b': Fe, w': Pt, u: Fe, g: Pt, tau: Fe)
    ensures Opening(Plus(c, c'), Add(b, b'), u, Plus(w, w'), g, tau)
         == Plus(Opening(c, b, u, w, g, tau), Opening(c', b', u, w', g, tau))
  {
    hide Smul, Plus, Minus, Add;
    SmulFAdd(b, b', g);
    SmulPlus(u, w, w');
    SmulPlus(tau, w, w');
    MinusSwap(c, c', Smul(b, g), Smul(b', g));
    PlusSwap(Minus(c, Smul(b, g)), Minus(c', Smul(b', g)), Smul(u, w), Smul(u, w'));
    MinusSwap(Plus(Minus(c, Smul(b, g)), Smul(u, w)), Plus(Minus(c', Smul(b', g)), Smul(u, w')), Smul(tau, w),
              Smul(tau, w'));
  }

  lemma OpeningScale(k: Fe, c: Pt, b: Fe, w: Pt, u: Fe, g: Pt, tau: Fe)
    ensures Opening(Smul(k, c), Mul(k, b), u, Smul(k, w), g, tau) == Smul(k, Opening(c, b, u, w, g, tau))
  {
    hide Smul, Plus, Minus, Mul;
    SmulFMul(k, b, g);
    Exchange(k, u, w);
    Exchange(k, tau, w);
    SmulMinus(k, c, Smul(b, g));
    SmulPlus(k, Minus(c, Smul(b, g)), Smul(u, w));
    SmulMinus(k, Plus(Minus(c, Smul(b, g)), Smul(u, w)), Smul(tau, w));
  }

  /** Weighted sums of true openings at one point are true openings. */
  lemma {:induction false} OpeningsCombine(s: Vec, cs: seq<Pt>, bs: Vec, ws: seq<Pt>, u: Fe, g: Pt, tau: Fe)
    requires |s| == |cs| == |bs| == |ws|
    requires forall k :: 0 <= k < |s| ==> Opening(cs[k], bs[k], u, ws[k], g, tau) == O
    ensures Opening(Msm(s, cs), Dot(s, bs), u, Msm(s, ws), g, tau) == O
  {
    hide Smul, Plus, Add, Mul, Opening;
    if |s| == 0 {
      EmptyOpening(u, g, tau);
    } else {
      OpeningsCombine(s[1..], cs[1..], bs[1..], ws[1..], u, g, tau);
      assert Opening(cs[0], bs[0], u, ws[0], g, tau) == O;
      OpeningScale(s[0], cs[0], bs[0], ws[0], u, g, tau);
      OpeningAdd(Smul(s[0], cs[0]), Mul(s[0], bs[0]), Smul(s[0], ws[0]),
                 Msm(s[1..], cs[1..]), Dot(s[1..], bs[1..]), Msm(s[1..], ws[1..]), u, g, tau);
      SmulO(s[0]);
      PlusO(O);
    }
  }

  lemma EmptyOpening(u: Fe, g: Pt, tau: Fe)
    ensures Opening(O, 0, u, O, g, tau) == O
  {
    hide Smul, Plus, Minus;
    SmulSmall(g);
    SmulO(u);
    SmulO(tau);
    MinusIsO(O, O);
    PlusO(O);
  }

  /** The prover's reply to one answer at the second challenge, and its continuations. */
  datatype Branch = Branch(w: Witnesses, fork: Fork)

  function WitnessesAt(bs: seq<Branch>, i: nat): (ws: seq<Pt>)
    ensures |ws| == |bs|
  {
    seq(|bs|, k requires 0 <= k < |bs| => if i == 0 then bs[k].w.w0 else if i == 1 then bs[k].w.w1 else bs[k].w.w2)
  }

  /** From one opening of the batch for each of n distinct challenges: an opening of every
      commitment, whose witness is the same combination of the n witnesses whatever tau is. */
  lemma OpensEach(pts: seq<Pt>, values: Vec, ws: seq<Pt>, qs: seq<Fe>, u: Fe, g: Pt, tau: Fe, j: nat)
    requires j < |pts| == |values| == |ws| == |qs| && Distinct(qs)
    requires forall k :: 0 <= k < |qs| ==>
      Opening(Msm(Geometric(1, qs[k], |pts|), pts), Eval(values, qs[k]), u, ws[k], g, tau) == O
    ensures Opening(pts[j], values[j], u, Msm(Extractor(qs, j), ws), g, tau) == O
  {
    hide Extractor, Msm, Dot, Eval, Geometric, Opening;
    var s := Extractor(qs, j);
    OpeningsCombine(s, Batches(pts, qs), ValuesAt(values, qs), ws, u, g, tau);
    ExtractPoint(qs, pts, j);
    ReadsCoefficient(qs, values, j);
  }

  /** The point at which column i is claimed. */
  function PointOf(r: Fe, i: nat): Fe {
    if i == 0 then r else if i == 1 then Neg(r) else Mul(r, r)
  }

  lemma BranchOpens(b: Branch, q: Fe, g: Pt, tau: Fe, C: Pt, xs: Vec, y: Fe, com: seq<Pt>, v: seq<Triple>,
                    log: Log<Msg>, r: Fe)
    requires |xs| >= 1 && Forks(b.fork, com, b.w, v, log, r, q)
    requires AllAccept(b.fork, g, tau, C, xs, y, Argument(com, b.w, v), log)
    ensures |v| == |xs| && |com| == |xs| - 1 && ChainHolds(r, xs, v, y)
    ensures forall i :: 0 <= i < 3 ==>
      Opening(Batch(C, com, q), Eval(Column(v, i), q), PointOf(r, i), WitnessesAt([b], i)[0], g, tau) == O
  {
    hide Opening, Column, Forks, AllAccept, Batch, Eval, ChainHolds, Neg, Mul;
    ThreeOpenings(b.fork, g, tau, C, xs, y, com, b.w, v, log, r, q);
  }

  /** For every commitments com and values v: if, for |v| distinct answers at the second
      challenge, the prover finds witnesses accepted under three answers at the last one,
      then the lengths fit, the chain holds, and every commitment opens to its claimed
      values at r, -r and r^2. */
  lemma EveryOpening(bs: seq<Branch>, qs: seq<Fe>, g: Pt, tau: Fe, C: Pt, xs: Vec, y: Fe, com: seq<Pt>, v: seq<Triple>,
                     log: Log<Msg>, r: Fe)
    requires |xs| >= 1 && |bs| == |qs| == |v| >= 1 && Distinct(qs)
    requires forall k :: 0 <= k < |bs| ==> Forks(bs[k].fork, com, bs[k].w, v, log, r, qs[k])
    requires forall k :: 0 <= k < |bs| ==> AllAccept(bs[k].fork, g, tau, C, xs, y, Argument(com, bs[k].w, v), log)
    ensures |v| == |xs| && |com| == |xs| - 1 && ChainHolds(r, xs, v, y)
    ensures forall i, j :: 0 <= i < 3 && 0 <= j < |xs| ==>
      Opening(([C] + com)[j], Column(v, i)[j], PointOf(r, i), Msm(Extractor(qs, j), WitnessesAt(bs, i)), g, tau) == O
  {
    hide Opening, Column, Forks, AllAccept, Msm, Eval, Geometric, ChainHolds, Extractor, Neg, Mul;
    BranchOpens(bs[0], qs[0], g, tau, C, xs, y, com, v, log, r);
    forall i, k | 0 <= i < 3 && 0 <= k < |bs|
      ensures Opening(Msm(Geometric(1, qs[k], |com| + 1), [C] + com), Eval(Column(v, i), qs[k]), PointOf(r, i),
                      WitnessesAt(bs, i)[k], g, tau) == O
    {
      BranchOpens(bs[k], qs[k], g, tau, C, xs, y, com, v, log, r);
      assert WitnessesAt([bs[k]], i)[0] == WitnessesAt(bs, i)[k];
    }
    forall i, j | 0 <= i < 3 && 0 <= j < |xs|
      ensures Opening(([C] + com)[j], Column(v, i)[j], PointOf(r, i), Msm(Extractor(qs, j), WitnessesAt(bs, i)), g, tau)
           == O
    {
      OpensEach([C] + com, Column(v, i), WitnessesAt(bs, i), qs, PointOf(r, i), g, tau, j);
    }
  }

  // --------------------------------------------- enough answers at the first challenge

  function Squares(rs: seq<Fe>): (s: seq<Fe>)
    ensures |s| == |rs|
  {
    seq(|rs|, k requires 0 <= k < |rs| => Mul(rs[k], rs[k]))
  }

  /** For every list of polynomials, honestly folded or not: if their true values pass the
      chain at enough nonzero challenges with different squares, then each is the fold of
      the one before and the claimed value is the multilinear evaluation of the first. */
  lemma {:induction false} FoldingIsForced(fs: seq<Vec>, xs: Vec, y: Fe, rs: seq<Fe>)
    requires |fs| == |xs| >= 1 && |fs[0]| == Pow2(|xs|)
    requires |rs| >= 1 && forall j :: 0 <= j < |fs| ==> |fs[j]| <= |rs|
    requires Distinct(Squares(rs))
    requires forall k :: 0 <= k < |rs| ==> rs[k] != 0 && ChainHolds(rs[k], xs, Triples(fs, rs[k]), y)
    ensures forall j :: 0 <= j < |fs| ==> SameValues(fs[j], Tables(fs[0], xs)[j])
    ensures y == Mle(fs[0], xs)
  {
    hide Eval, Mle, Tables, Mul, Neg, ChainHolds, SameValues, Squares;
    var ts := Tables(fs[0], xs);
    TableSizes(fs[0], xs);
    SameItself(fs[0]);
    assert TripleOf(fs[0], rs[0]) == TripleOf(ts[0], rs[0]);
    var n := 1;
    while n < |fs|
      invariant 1 <= n <= |fs| && forall j :: 0 <= j < n ==> SameValues(fs[j], ts[j])
    {
      NextIsFold(fs, xs, y, rs, n);
      n := n + 1;
    }
    ChainEndsAtMle(fs[0], xs, rs[0], y);
    SameTriples(fs, ts, rs[0]);
  }

  lemma SameItself(f: Vec)
    ensures SameValues(f, f)
  {
  }

  lemma SameTriples(fs: seq<Vec>, ts: seq<Vec>, r: Fe)
    requires |fs| == |ts| && forall j :: 0 <= j < |fs| ==> SameValues(fs[j], ts[j])
    ensures Triples(fs, r) == Triples(ts, r)
  {
    hide Eval, Mul, Neg;
  }

  lemma NextAgrees(f: Vec, next: Vec, t: Vec, x: Fe, r: Fe)
    requires SameValues(f, t) && |t| % 2 == 0 && r != 0
    requires Consistent(r, x, Eval(f, r), Eval(f, Neg(r)), Eval(next, Mul(r, r)))
    ensures Eval(next, Mul(r, r)) == Eval(FoldTable(t, x), Mul(r, r))
  {
    hide Eval, Mul, Neg, FoldTable, Consistent, SameValues;
    SameAt(f, t, r);
    SameAt(f, t, Neg(r));
    ConsistentExactly(t, x, r, Eval(next, Mul(r, r)));
  }

  lemma NextIsFold(fs: seq<Vec>, xs: Vec, y: Fe, rs: seq<Fe>, n: nat)
    requires |fs| == |xs| && 1 <= n < |fs| && |fs[0]| == Pow2(|xs|)
    requires forall j :: 0 <= j < |fs| ==> |fs[j]| <= |rs|
    requires Distinct(Squares(rs))
    requires forall k :: 0 <= k < |rs| ==> rs[k] != 0 && ChainHolds(rs[k], xs, Triples(fs, rs[k]), y)
    requires SameValues(fs[n - 1], Tables(fs[0], xs)[n - 1])
    ensures SameValues(fs[n], Tables(fs[0], xs)[n])
  {
    hide *;
    var t := Tables(fs[0], xs)[n];
    assert |t| <= |rs| by { TableSizes(fs[0], xs); }
    forall k | 0 <= k < |rs| ensures Eval(fs[n], Squares(rs)[k]) == Eval(t, Squares(rs)[k]) {
      SquareAt(rs, k);
      NextAt(fs, xs, y, rs[k], n);
    }
    AgreeLonger(fs[n], t, Squares(rs));
  }

  lemma NextAt(fs: seq<Vec>, xs: Vec, y: Fe, r: Fe, n: nat)
    requires |fs| == |xs| && 1 <= n < |fs| && |fs[0]| == Pow2(|xs|)
    requires r != 0 && ChainHolds(r, xs, Triples(fs, r), y)
    requires SameValues(fs[n - 1], Tables(fs[0], xs)[n - 1])
    ensures Eval(fs[n], Mul(r, r)) == Eval(Tables(fs[0], xs)[n], Mul(r, r))
  {
    hide *;
    TableIsFold(fs[0], xs, n);
    LinkOfChain(fs, xs, y, r, n - 1);
    NextAgrees(fs[n - 1], fs[n], Tables(fs[0], xs)[n - 1], xs[|xs| - n], r);
  }

  lemma SquareAt(rs: seq<Fe>, k: nat)
    requires k < |rs|
    ensures Squares(rs)[k] == Mul(rs[k], rs[k])
  {
    hide Mul;
  }

  lemma SameAt(f: Vec, h: Vec, x: Fe)
    requires SameValues(f, h)
    ensures Eval(f, x) == Eval(h, x)
  {
    hide Eval;
  }

  lemma LinkOfChain(fs: seq<Vec>, xs: Vec, y: Fe, r: Fe, i: nat)
    requires |fs| == |xs| && i + 1 < |fs| && ChainHolds(r, xs, Triples(fs, r), y)
    ensures Consistent(r, xs[|xs| - (i + 1)], Eval(fs[i], r), Eval(fs[i], Neg(r)), Eval(fs[i + 1], Mul(r, r)))
  {
    hide Eval, Mul, Neg, Consistent;
    assert Link(r, xs, Triples(fs, r), y, i);
    assert |xs| - (i + 1) == |xs| - i - 1;
    assert Triples(fs, r)[i] == TripleOf(fs[i], r) && Triples(fs, r)[i + 1] == TripleOf(fs[i + 1], r);
  }

  lemma {:induction false} TableIsFold(p: Vec, xs: Vec, n: nat)
    requires |p| == Pow2(|xs|) && 1 <= n < |xs|
    ensures |Tables(p, xs)[n - 1]| % 2 == 0
    ensures Tables(p, xs)[n] == FoldTable(Tables(p, xs)[n - 1], xs[|xs| - n])
    decreases |xs|
  {
    hide FoldTable, Mle;
    EvenLength(|xs|);
    FoldKeepsMle(p, xs);
    if n > 1 {
      TableIsFold(FoldTable(p, xs[|xs| - 1]), xs[..|xs| - 1], n - 1);
    }
  }
}
