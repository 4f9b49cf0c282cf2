/** HyperKZG: opening a multilinear polynomial by folding its evaluation table one
    variable at a time and batch-opening the univariate polynomials met.

    The pairing is taken at its contract: pairings of L with H and of R with tau*H
    agree exactly when L is tau times R. */
module HyperKzg {
  import opened PrimeField
  import opened FieldLaws
  import opened PrimeGroup
  import opened Vectors
  import opened Pedersen
  import opened PowersOfTwo
  import opened Polynomials
  import opened ChunkedDivision
  import opened Curve
  import opened Transcripts

  // ------------------------------------------------------------------- folding

  /** The multilinear polynomial with the given table of values on the cube, the
      first variable being the top bit of the index. */
  function Mle(p: Vec, xs: Vec): Fe
    requires |p| == Pow2(|xs|)
  {
    if |xs| == 0 then p[0]
    else
      var h := Pow2(|xs| - 1);
      Add(Mul(Sub(1, xs[0]), Mle(p[..h], xs[1..])), Mul(xs[0], Mle(p[h..], xs[1..])))
  }

  /** Fixing the variable of the lowest index bit to x. */
  function FoldTable(p: Vec, x: Fe): (q: Vec)
    ensures |q| == |p| / 2
  {
    seq(|p| / 2, j requires 0 <= j < |p| / 2 => Add(Mul(x, Sub(p[2 * j + 1], p[2 * j])), p[2 * j]))
  }

  /** The tables met on the way, the input first; the last one, a constant, is left out. */
  function Tables(p: Vec, xs: Vec): (ps: seq<Vec>)
    requires |p| == Pow2(|xs|) && |xs| >= 1
    ensures |ps| == |xs| && ps[0] == p
    decreases |xs|
  {
    if |xs| == 1 then [p] else [p] + Tables(FoldTable(p, xs[|xs| - 1]), xs[..|xs| - 1])
  }

  lemma {:induction false} FoldKeepsMle(p: Vec, xs: Vec)
    requires |p| == Pow2(|xs|) && |xs| >= 1
    ensures |FoldTable(p, xs[|xs| - 1])| == Pow2(|xs| - 1)
    ensures Mle(FoldTable(p, xs[|xs| - 1]), xs[..|xs| - 1]) == Mle(p, xs)
  {
    hide Mul, Add, Sub;
    var x := xs[|xs| - 1];
    if |xs| == 1 {
      FoldLast(p, xs);
    } else {
      var h := Pow2(|xs| - 1);
      Pow2Double(|xs| - 2);
      var init := xs[..|xs| - 1];
      assert init[1..] == xs[1..][..|xs| - 2];
      FoldHalves(p, h / 2, x);
      FoldKeepsMle(p[..h], xs[1..]);
      FoldKeepsMle(p[h..], xs[1..]);
    }
  }

  lemma FoldHalves(p: Vec, h: nat, x: Fe)
    requires |p| == 4 * h
    ensures |FoldTable(p, x)| == 2 * h
    ensures FoldTable(p, x)[..h] == FoldTable(p[..2 * h], x) && FoldTable(p, x)[h..] == FoldTable(p[2 * h..], x)
  {
    hide Mul, Add, Sub;
  }

  lemma FoldLast(p: Vec, xs: Vec)
    requires |p| == 2 && |xs| == 1
    ensures |FoldTable(p, xs[0])| == 1 && Mle(FoldTable(p, xs[0]), xs[..0]) == Mle(p, xs)
  {
    hide Mul, Add, Sub;
    assert p[..1][0] == p[0] && p[1..][0] == p[1];
    Interpolate(xs[0], p[0], p[1]);
  }

  lemma Interpolate(x: Fe, a: Fe, b: Fe)
    ensures Add(Mul(x, Sub(b, a)), a) == Add(Mul(Sub(1, x), a), Mul(x, b))
  {
    hide *;
    Hom();
    ROf(x); ROf(a); ROf(b); ROf(1);
    InterpolateI(x, a, b);
  }

  lemma InterpolateI(x: int, a: int, b: int)
    ensures IAdd(IMul(x, ISub(b, a)), a) == IAdd(IMul(ISub(1, x), a), IMul(x, b))
  {
  }

  // ------------------------------------------------- even and odd coefficients

  function Evens(p: Vec): (q: Vec)
    ensures |q| == |p| / 2
  {
    seq(|p| / 2, j requires 0 <= j < |p| / 2 => p[2 * j])
  }

  function Odds(p: Vec): (q: Vec)
    ensures |q| == |p| / 2
  {
    seq(|p| / 2, j requires 0 <= j < |p| / 2 => p[2 * j + 1])
  }

  lemma {:induction false} EvenOdd(p: Vec, r: Fe, s: Fe)
    requires |p| % 2 == 0 && s == Mul(r, r)
    ensures Eval(p, r) == Add(Eval(Evens(p), s), Mul(r, Eval(Odds(p), s)))
  {
    hide Mul, Add;
    if |p| == 0 {
      MulOne(r);
      AddZero(0);
    } else {
      EvenOdd(p[2..], r, s);
      assert Evens(p)[1..] == Evens(p[2..]) && Odds(p)[1..] == Odds(p[2..]);
      assert p[1..][1..] == p[2..];
      EvenOddStep(p[0], p[1], r, Eval(Evens(p[2..]), s), Eval(Odds(p[2..]), s));
    }
  }

  lemma EvenOddStep(a: Fe, b: Fe, r: Fe, e: Fe, o: Fe)
    ensures Add(a, Mul(r, Add(b, Mul(r, Add(e, Mul(r, o))))))
         == Add(Add(a, Mul(Mul(r, r), e)), Mul(r, Add(b, Mul(Mul(r, r), o))))
  {
    hide *;
    Hom();
    ROf(a); ROf(b); ROf(r); ROf(e); ROf(o);
    EvenOddStepI(a, b, r, e, o);
  }

  lemma EvenOddStepI(a: int, b: int, r: int, e: int, o: int)
    ensures IAdd(a, IMul(r, IAdd(b, IMul(r, IAdd(e, IMul(r, o))))))
         == IAdd(IAdd(a, IMul(IMul(r, r), e)), IMul(r, IAdd(b, IMul(IMul(r, r), o))))
  {
  }

  lemma {:induction false} FoldedValue(p: Vec, x: Fe, s: Fe)
    requires |p| % 2 == 0
    ensures Eval(FoldTable(p, x), s) == Add(Mul(x, Sub(Eval(Odds(p), s), Eval(Evens(p), s))), Eval(Evens(p), s))
  {
    hide Mul, Add, Sub;
    if |p| == 0 {
      AddZero(0);
      MulOne(x);
    } else {
      FoldedValue(p[2..], x, s);
      assert Evens(p)[1..] == Evens(p[2..]) && Odds(p)[1..] == Odds(p[2..]);
      assert FoldTable(p, x)[1..] == FoldTable(p[2..], x);
      FoldedStep(p[0], p[1], x, s, Eval(Evens(p[2..]), s), Eval(Odds(p[2..]), s));
    }
  }

  lemma FoldedStep(a: Fe, b: Fe, x: Fe, s: Fe, e: Fe, o: Fe)
    ensures Add(Add(Mul(x, Sub(b, a)), a), Mul(s, Add(Mul(x, Sub(o, e)), e)))
         == Add(Mul(x, Sub(Add(b, Mul(s, o)), Add(a, Mul(s, e)))), Add(a, Mul(s, e)))
  {
    hide *;
    Hom();
    ROf(a); ROf(b); ROf(x); ROf(s); ROf(e); ROf(o);
    FoldedStepI(a, b, x, s, e, o);
  }

  lemma FoldedStepI(a: int, b: int, x: int, s: int, e: int, o: int)
    ensures IAdd(IAdd(IMul(x, ISub(b, a)), a), IMul(s, IAdd(IMul(x, ISub(o, e)), e)))
         == IAdd(IMul(x, ISub(IAdd(b, IMul(s, o)), IAdd(a, IMul(s, e)))), IAdd(a, IMul(s, e)))
  {
  }

  /** The verifier's test of one folding step. */
  predicate Consistent(r: Fe, x: Fe, ypos: Fe, yneg: Fe, y: Fe) {
    Mul(Dbl(r), y) == Add(Mul(Mul(r, Sub(1, x)), Add(ypos, yneg)), Mul(x, Sub(ypos, yneg)))
  }

  /** On true values of a table's polynomial at r and -r, the test passes exactly for
      the value of the folded table's polynomial at r^2, unless r is zero. */
  lemma ConsistentExactly(p: Vec, x: Fe, r: Fe, y: Fe)
    requires |p| % 2 == 0
    ensures Consistent(r, x, Eval(p, r), Eval(p, Neg(r)), y)
       <==> r == 0 || y == Eval(FoldTable(p, x), Mul(r, r))
  {
    hide Mul, Add, Sub, FoldTable, Evens, Odds, Eval;
    var s := Mul(r, r);
    var e, o := Eval(Evens(p), s), Eval(Odds(p), s);
    NegSquare(r);
    EvenOdd(p, r, s);
    EvenOdd(p, Neg(r), s);
    FoldedValue(p, x, s);
    TestIdentity(r, x, e, o);
    TwoNonzero(r);
    var f := Eval(FoldTable(p, x), s);
    MulOne(y);
    MulOne(f);
    if r != 0 && Mul(Dbl(r), y) == Mul(Dbl(r), f) {
      MulComm(Dbl(r), y);
      MulComm(Dbl(r), f);
      MulCancel(y, f, Dbl(r));
    }
  }

  lemma NegSquare(r: Fe)
    ensures Mul(Neg(r), Neg(r)) == Mul(r, r)
  {
    hide *;
    assert Neg(r) == Sub(0, r) by { NegIs(r); }
    Hom();
    ROf(r); ROf(0);
    NegSquareI(r);
  }

  lemma NegIs(r: Fe)
    ensures Neg(r) == Sub(0, r)
  {
  }

  lemma NegSquareI(r: int)
    ensures IMul(ISub(0, r), ISub(0, r)) == IMul(r, r)
  {
  }

  lemma TestIdentity(r: Fe, x: Fe, e: Fe, o: Fe)
    ensures Add(Mul(Mul(r, Sub(1, x)), Add(Add(e, Mul(r, o)), Add(e, Mul(Neg(r), o)))),
                Mul(x, Sub(Add(e, Mul(r, o)), Add(e, Mul(Neg(r), o)))))
         == Mul(Dbl(r), Add(Mul(x, Sub(o, e)), e))
  {
    hide *;
    assert Neg(r) == Sub(0, r) && Dbl(r) == Add(r, r) by { NegIs(r); DblIs(r); }
    Hom();
    ROf(r); ROf(x); ROf(e); ROf(o); ROf(0); ROf(1);
    TestIdentityI(r, x, e, o);
  }

  lemma DblIs(r: Fe)
    ensures Dbl(r) == Add(r, r)
  {
  }

  lemma TestIdentityI(r: int, x: int, e: int, o: int)
    ensures IAdd(IMul(IMul(r, ISub(1, x)), IAdd(IAdd(e, IMul(r, o)), IAdd(e, IMul(ISub(0, r), o)))),
                 IMul(x, ISub(IAdd(e, IMul(r, o)), IAdd(e, IMul(ISub(0, r), o)))))
         == IMul(IAdd(r, r), IAdd(IMul(x, ISub(o, e)), e))
  {
  }

  // ----------------------------------------------------------------- the chain

  /** The test of folding step i, against the next step's value at r^2; the last
      step is tested against y. */
  predicate Link(r: Fe, xs: Vec, v: seq<Triple>, y: Fe, i: nat)
    requires i < |v| == |xs|
  {
    Consistent(r, xs[|xs| - i - 1], v[i].pos, v[i].neg, if i + 1 < |v| then v[i + 1].sq else y)
  }

  /** The verifier's tests of all folding steps against claimed values v. */
  predicate ChainHolds(r: Fe, xs: Vec, v: seq<Triple>, y: Fe)
    requires |v| == |xs|
  {
    forall i :: 0 <= i < |xs| ==> Link(r, xs, v, y, i)
  }

  /** The values of one polynomial at r, -r and r^2. */
  datatype Triple = Triple(pos: Fe, neg: Fe, sq: Fe)

  function TripleOf(p: Vec, r: Fe): Triple {
    Triple(Eval(p, r), Eval(p, Neg(r)), Eval(p, Mul(r, r)))
  }

  function Triples(ps: seq<Vec>, r: Fe): (v: seq<Triple>)
    ensures |v| == |ps|
  {
    seq(|ps|, i requires 0 <= i < |ps| => TripleOf(ps[i], r))
  }

  /** The chain of tests ends at the multilinear evaluation. */
  lemma {:induction false} ChainEndsAtMle(p: Vec, xs: Vec, r: Fe, y: Fe)
    requires |p| == Pow2(|xs|) && |xs| >= 1
    ensures ChainHolds(r, xs, Triples(Tables(p, xs), r), y) <==> r == 0 || y == Mle(p, xs)
    decreases |xs|
  {
    hide Mul, Add, Sub, Eval, FoldTable, Consistent, Mle;
    var x := xs[|xs| - 1];
    var v := Triples(Tables(p, xs), r);
    FoldKeepsMle(p, xs);
    EvenLength(|xs|);
    if |xs| == 1 {
      ConsistentExactly(p, x, r, y);
      var q := FoldTable(p, x);
      assert xs[..0] == [];
      ConstantTable(q, Mul(r, r));
      assert v[0] == TripleOf(p, r);
      assert Link(r, xs, v, y, 0) == Consistent(r, x, v[0].pos, v[0].neg, y);
    } else {
      var q, rest := FoldTable(p, x), xs[..|xs| - 1];
      var w := Triples(Tables(q, rest), r);
      ConsistentExactly(p, x, r, Eval(q, Mul(r, r)));
      ChainEndsAtMle(q, rest, r, y);
      assert v[0] == TripleOf(p, r) && v[1..] == w;
      assert w[0] == TripleOf(q, r);
      ChainSplit(r, xs, v, y);
    }
  }

  lemma EvenLength(k: nat)
    requires k >= 1
    ensures Pow2(k) % 2 == 0
  {
  }

  lemma ConstantTable(q: Vec, s: Fe)
    requires |q| == 1
    ensures Eval(q, s) == q[0] && Mle(q, []) == q[0]
  {
    assert q == [q[0]];
    EvalOne(q[0], s);
  }

  lemma ChainSplit(r: Fe, xs: Vec, v: seq<Triple>, y: Fe)
    requires |v| == |xs| >= 2
    ensures ChainHolds(r, xs, v, y)
      <==> Consistent(r, xs[|xs| - 1], v[0].pos, v[0].neg, v[1].sq) && ChainHolds(r, xs[..|xs| - 1], v[1..], y)
  {
    hide Link;
    var rest, w := xs[..|xs| - 1], v[1..];
    FirstLink(r, xs, v, y);
    forall i | 0 <= i < |rest| ensures Link(r, rest, w, y, i) == Link(r, xs, v, y, i + 1) {
      LinkShift(r, xs, v, y, i);
    }
    if Link(r, xs, v, y, 0) && ChainHolds(r, rest, w, y) {
      forall i | 0 <= i < |xs| ensures Link(r, xs, v, y, i) {
        if i > 0 { assert Link(r, rest, w, y, i - 1); }
      }
    }
  }

  lemma FirstLink(r: Fe, xs: Vec, v: seq<Triple>, y: Fe)
    requires |v| == |xs| >= 2
    ensures Link(r, xs, v, y, 0) == Consistent(r, xs[|xs| - 1], v[0].pos, v[0].neg, v[1].sq)
  {
    hide Consistent;
  }

  lemma LinkShift(r: Fe, xs: Vec, v: seq<Triple>, y: Fe, i: nat)
    requires |v| == |xs| >= 2 && i < |xs| - 1
    ensures Link(r, xs[..|xs| - 1], v[1..], y, i) == Link(r, xs, v, y, i + 1)
  {
    hide Consistent;
    var rest, w := xs[..|xs| - 1], v[1..];
    assert rest[|rest| - i - 1] == xs[|xs| - (i + 1) - 1] && w[i] == v[i + 1];
    if i + 1 < |w| { assert w[i + 1] == v[i + 1 + 1]; }
  }

  // -------------------------------------------------------- batched polynomials

  /** f[0] + q*f[1] + ... with shorter polynomials extended by zeros. */
  function Batched(f: seq<Vec>, q: Fe, k: nat): (b: Vec)
    requires 1 <= k <= |f| && forall i :: 0 <= i < |f| ==> |f[i]| <= |f[0]|
    ensures |b| == |f[0]|
  {
    if k == 1 then f[0] else MulAddVec(Batched(f, q, k - 1), f[k - 1], Pow(q, k - 1))
  }

  function Evals(f: seq<Vec>, x: Fe): (e: Vec)
    ensures |e| == |f|
  {
    seq(|f|, i requires 0 <= i < |f| => Eval(f[i], x))
  }

  /** A batched polynomial's value is the values' own polynomial in q. */
  lemma {:induction false} BatchedValue(f: seq<Vec>, q: Fe, k: nat, x: Fe)
    requires 1 <= k <= |f| && forall i :: 0 <= i < |f| ==> |f[i]| <= |f[0]|
    ensures Eval(Batched(f, q, k), x) == Eval(Evals(f[..k], x), q)
  {
    hide Mul, Add, Eval, Pow, MulAddVec;
    if k == 1 {
      assert Evals(f[..1], x) == [Eval(f[0], x)];
      EvalOne(Eval(f[0], x), q);
    } else {
      BatchedValue(f, q, k - 1, x);
      EvalMulAddVec(Batched(f, q, k - 1), f[k - 1], Pow(q, k - 1), x);
      assert Evals(f[..k], x) == Evals(f[..k - 1], x) + [Eval(f[k - 1], x)];
      EvalSnoc(Evals(f[..k - 1], x), Eval(f[k - 1], x), q);
    }
  }

  // ---------------------------------------------------------- commitment keys

  /** The key holds tau^i times the generator. */
  ghost predicate IsSrs(ck: seq<Pt>, tau: Fe, g: Pt) {
    forall i :: 0 <= i < |ck| ==> ck[i] == Smul(Pow(tau, i), g)
  }

  lemma {:induction false} SrsMsm(f: Vec, ck: seq<Pt>, tau: Fe, k: nat, g: Pt)
    requires |f| == |ck| && forall i :: 0 <= i < |ck| ==> ck[i] == Smul(Pow(tau, k + i), g)
    ensures Msm(f, ck) == Smul(Mul(Pow(tau, k), Eval(f, tau)), g)
  {
    hide Mul, Add, Plus, Smul, Pow;
    if |f| == 0 {
      MulOne(Pow(tau, k));
      SmulSmall(g);
    } else {
      forall i | 0 <= i < |ck| - 1 ensures ck[1..][i] == Smul(Pow(tau, k + 1 + i), g) {
        assert ck[1..][i] == ck[i + 1] && k + (i + 1) == k + 1 + i;
      }
      SrsMsm(f[1..], ck[1..], tau, k + 1, g);
      assert ck[0] == Smul(Pow(tau, k + 0), g);
      SmulFMul(f[0], Pow(tau, k), g);
      PowSnoc(tau, k);
      var e := Eval(f[1..], tau);
      SmulFAdd(Mul(f[0], Pow(tau, k)), Mul(Pow(tau, k + 1), e), g);
      SrsStep(f[0], Pow(tau, k), tau, e);
    }
  }

  lemma SrsStep(c: Fe, p: Fe, t: Fe, e: Fe)
    ensures Add(Mul(c, p), Mul(Mul(p, t), e)) == Mul(p, Add(c, Mul(t, e)))
  {
    hide *;
    Hom();
    ROf(c); ROf(p); ROf(t); ROf(e);
    SrsStepI(c, p, t, e);
  }

  lemma SrsStepI(c: int, p: int, t: int, e: int)
    ensures IAdd(IMul(c, p), IMul(IMul(p, t), e)) == IMul(p, IAdd(c, IMul(t, e)))
  {
  }

  /** A commitment without blinding is the value at tau, in the exponent. */
  lemma CommitIsValue(key: Key, f: Vec, tau: Fe, g: Pt)
    requires |f| <= |key.ck| && IsSrs(key.ck, tau, g)
    ensures Commit(key, f, 0) == Smul(Eval(f, tau), g)
  {
    hide Mul, Plus, Smul, Msm, Eval, Pow;
    var ck := key.ck[..|f|];
    forall i | 0 <= i < |ck| ensures ck[i] == Smul(Pow(tau, 0 + i), g) {
      assert key.ck[i] == Smul(Pow(tau, i), g);
    }
    SrsMsm(f, ck, tau, 0, g);
    assert Pow(tau, 0) == 1 by { PowZeroIs(tau); }
    MulOne(Eval(f, tau));
    SmulSmall(key.h);
    PlusO(Msm(f, ck));
  }

  lemma PowZeroIs(t: Fe)
    ensures Pow(t, 0) == 1
  {
  }

  /** A product over multiples of one point. */
  lemma {:induction false} MsmOfMultiples(s: Vec, pts: seq<Pt>, e: Vec, g: Pt)
    requires |s| == |pts| == |e| && forall i :: 0 <= i < |pts| ==> pts[i] == Smul(e[i], g)
    ensures Msm(s, pts) == Smul(Dot(s, e), g)
  {
    hide Mul, Add, Plus, Smul;
    if |s| == 0 {
      SmulSmall(g);
    } else {
      MsmOfMultiples(s[1..], pts[1..], e[1..], g);
      SmulFMul(s[0], e[0], g);
      SmulFAdd(Mul(s[0], e[0]), Dot(s[1..], e[1..]), g);
    }
  }

  // ---------------------------------------------------------------- the protocol

  datatype Msg = AbsorbC(com: seq<Pt>) | AbsorbV(v: seq<Triple>) | AbsorbW(w: Witnesses)

  /** The three opening witnesses. */
  datatype Witnesses = Witnesses(w0: Pt, w1: Pt, w2: Pt)

  datatype Argument = Argument(com: seq<Pt>, w: Witnesses, v: seq<Triple>)

  datatype Verdict = Accepted | InvalidLengths | InconsistentValues | PairingFailed

  function LogR(com: seq<Pt>, log: Log<Msg>): Log<Msg> {
    log + [Said(AbsorbC(com))]
  }

  function LogQ(com: seq<Pt>, v: seq<Triple>, log: Log<Msg>): Log<Msg> {
    LogR(com, log) + [Squeezed] + [Said(AbsorbV(v))]
  }

  function LogD(com: seq<Pt>, v: seq<Triple>, w: Witnesses, log: Log<Msg>): Log<Msg> {
    LogQ(com, v, log) + [Squeezed] + [Said(AbsorbW(w))]
  }

  function Commitments(key: Key, ps: seq<Vec>): (com: seq<Pt>)
    requires forall i :: 0 <= i < |ps| ==> |ps[i]| <= |key.ck|
    ensures |com| == |ps|
  {
    seq(|ps|, i requires 0 <= i < |ps| => Commit(key, ps[i], 0))
  }

  function Open(key: Key, b: Vec, u: Fe): Pt
    requires 0 < |b| <= |key.ck|
  {
    Commit(key, Quotient(b, u), 0)
  }

  lemma {:induction false} TableSizes(p: Vec, xs: Vec)
    requires |p| == Pow2(|xs|) && |xs| >= 1
    ensures forall i :: 0 <= i < |xs| ==> |Tables(p, xs)[i]| <= |p|
    decreases |xs|
  {
    if |xs| > 1 {
      var q, rest := FoldTable(p, xs[|xs| - 1]), xs[..|xs| - 1];
      TableSizes(q, rest);
      var ps := Tables(p, xs);
      forall i | 0 <= i < |xs| ensures |ps[i]| <= |p| {
        if i > 0 { assert ps[i] == Tables(q, rest)[i - 1]; }
      }
    }
  }

  function OpenBatch(key: Key, b: Vec, r: Fe): Witnesses
    requires 0 < |b| <= |key.ck|
  {
    Witnesses(Open(key, b, r), Open(key, b, Neg(r)), Open(key, b, Mul(r, r)))
  }

  function ProveSpec(key: Key, p: Vec, xs: Vec, oracle: Oracle<Msg>, log: Log<Msg>): (arg: Argument)
    requires |p| == Pow2(|xs|) <= |key.ck| && |xs| >= 1
    ensures |arg.v| == |xs| && |arg.com| == |xs| - 1
  {
    hide Commit, Batched, OpenBatch;
    var ps := Tables(p, xs);
    TableSizes(p, xs);
    var com := Commitments(key, ps[1..]);
    var r := oracle(LogR(com, log));
    var v := Triples(ps, r);
    var q := oracle(LogQ(com, v, log));
    Argument(com, OpenBatch(key, Batched(ps, q, |ps|), r), v)
  }

  function Column(v: seq<Triple>, j: nat): (c: Vec)
    ensures |c| == |v|
  {
    seq(|v|, i requires 0 <= i < |v| => if j == 0 then v[i].pos else if j == 1 then v[i].neg else v[i].sq)
  }

  /** The verifier's left side. */
  function LeftSide(C: Pt, arg: Argument, g: Pt, r: Fe, q: Fe, d: Fe): Pt
    requires |arg.v| == |arg.com| + 1
  {
    var d1 := Sq(d);
    var values := Add(Add(Eval(Column(arg.v, 0), q), Mul(d, Eval(Column(arg.v, 1), q))),
                      Mul(d1, Eval(Column(arg.v, 2), q)));
    Msm(Geometric(Add(Add(1, d), d1), q, |arg.v|) + [r, Mul(Neg(r), d), Mul(Mul(r, r), d1), Neg(values)],
        [C] + arg.com + [arg.w.w0, arg.w.w1, arg.w.w2] + [g])
  }

  function RightSide(w: Witnesses, d: Fe): Pt {
    Plus(Plus(w.w0, Smul(d, w.w1)), Smul(Sq(d), w.w2))
  }

  /** The pairing check, for a verifier key built from tau. */
  predicate PairingHolds(left: Pt, right: Pt, tau: Fe) {
    left == Smul(tau, right)
  }

  function VerifySpec(g: Pt, tau: Fe, C: Pt, xs: Vec, y: Fe, arg: Argument, oracle: Oracle<Msg>, log: Log<Msg>): Verdict
    requires |xs| >= 1
  {
    var r := oracle(LogR(arg.com, log));
    if |arg.v| != |xs| || |arg.com| != |xs| - 1 then InvalidLengths
    else if !ChainHolds(r, xs, arg.v, y) then InconsistentValues
    else
      var q := oracle(LogQ(arg.com, arg.v, log));
      var d := oracle(LogD(arg.com, arg.v, arg.w, log));
      if PairingHolds(LeftSide(C, arg, g, r, q, d), RightSide(arg.w, d), tau) then Accepted else PairingFailed
  }

  // --------------------------------------------------------------- completeness

  lemma ColumnsAreEvals(ps: seq<Vec>, r: Fe)
    ensures Column(Triples(ps, r), 0) == Evals(ps, r)
    ensures Column(Triples(ps, r), 1) == Evals(ps, Neg(r))
    ensures Column(Triples(ps, r), 2) == Evals(ps, Mul(r, r))
  {
    hide Eval, Mul, Neg;
  }

  /** The opening witness in the exponent: (tau - u) * h = b(tau) - b(u). */
  lemma OpenMeaning(key: Key, b: Vec, u: Fe, tau: Fe, g: Pt)
    requires 0 < |b| <= |key.ck| && IsSrs(key.ck, tau, g)
    ensures Open(key, b, u) == Smul(Eval(Quotient(b, u), tau), g)
    ensures Eval(b, tau) == Add(Mul(Sub(tau, u), Eval(Quotient(b, u), tau)), Eval(b, u))
  {
    hide Eval, Mul, Add, Sub, Commit, Quotient, IsSrs;
    CommitIsValue(key, Quotient(b, u), tau, g);
    QuotientDivides(b, u, tau);
  }

  /** The batched equation as one identity of field elements. */
  lemma BatchedEquation(t: Fe, b: Fe, d: Fe, u0: Fe, u1: Fe, u2: Fe, h0: Fe, h1: Fe, h2: Fe, b0: Fe, b1: Fe, b2: Fe)
    requires b == Add(Mul(Sub(t, u0), h0), b0)
    requires b == Add(Mul(Sub(t, u1), h1), b1)
    requires b == Add(Mul(Sub(t, u2), h2), b2)
    ensures Add(Mul(Add(Add(1, d), Mul(d, d)), b),
                Sub(Add(Add(Mul(u0, h0), Mul(Mul(u1, d), h1)), Mul(Mul(u2, Mul(d, d)), h2)),
                    Add(Add(b0, Mul(d, b1)), Mul(Mul(d, d), b2))))
         == Mul(t, Add(Add(h0, Mul(d, h1)), Mul(Mul(d, d), h2)))
  {
    hide *;
    MulDistribute3(d, Mul(d, d), b);
    OneOpening(t, b, u0, h0, b0);
    OneOpening(t, b, u1, h1, b1);
    OneOpening(t, b, u2, h2, b2);
    CollectOpenings(t, d, Mul(d, d), u0, u1, u2, h0, h1, h2, b0, b1, b2);
  }

  lemma OneOpening(t: Fe, b: Fe, u: Fe, h: Fe, c: Fe)
    requires b == Add(Mul(Sub(t, u), h), c)
    ensures b == Sub(Add(Mul(t, h), c), Mul(u, h))
  {
    hide *;
    Hom();
    ROf(t); ROf(u); ROf(h); ROf(c);
    OneOpeningI(t, u, h, c);
  }

  lemma OneOpeningI(t: int, u: int, h: int, c: int)
    ensures IAdd(IMul(ISub(t, u), h), c) == ISub(IAdd(IMul(t, h), c), IMul(u, h))
  {
  }

  lemma MulDistribute3(d: Fe, e: Fe, b: Fe)
    ensures Mul(Add(Add(1, d), e), b) == Add(Add(b, Mul(d, b)), Mul(e, b))
  {
    hide *;
    AddMul(Add(1, d), e, b);
    AddMul(1, d, b);
    MulOne(b);
  }

  lemma CollectOpenings(t: Fe, d: Fe, e: Fe, u0: Fe, u1: Fe, u2: Fe, h0: Fe, h1: Fe, h2: Fe, b0: Fe, b1: Fe, b2: Fe)
    ensures Add(Add(Add(Sub(Add(Mul(t, h0), b0), Mul(u0, h0)), Mul(d, Sub(Add(Mul(t, h1), b1), Mul(u1, h1)))),
                    Mul(e, Sub(Add(Mul(t, h2), b2), Mul(u2, h2)))),
                Sub(Add(Add(Mul(u0, h0), Mul(Mul(u1, d), h1)), Mul(Mul(u2, e), h2)),
                    Add(Add(b0, Mul(d, b1)), Mul(e, b2))))
         == Mul(t, Add(Add(h0, Mul(d, h1)), Mul(e, h2)))
  {
    hide *;
    Hom();
    ROf(t); ROf(d); ROf(e); ROf(u0); ROf(u1); ROf(u2); ROf(h0); ROf(h1); ROf(h2); ROf(b0); ROf(b1); ROf(b2);
    CollectOpeningsI(t, d, e, u0, u1, u2, h0, h1, h2, b0, b1, b2);
  }

  lemma CollectOpeningsI(t: int, d: int, e: int, u0: int, u1: int, u2: int, h0: int, h1: int, h2: int,
                         b0: int, b1: int, b2: int)
    ensures IAdd(IAdd(IAdd(ISub(IAdd(IMul(t, h0), b0), IMul(u0, h0)), IMul(d, ISub(IAdd(IMul(t, h1), b1), IMul(u1, h1)))),
                      IMul(e, ISub(IAdd(IMul(t, h2), b2), IMul(u2, h2)))),
                 ISub(IAdd(IAdd(IMul(u0, h0), IMul(IMul(u1, d), h1)), IMul(IMul(u2, e), h2)),
                      IAdd(IAdd(b0, IMul(d, b1)), IMul(e, b2))))
         == IMul(t, IAdd(IAdd(h0, IMul(d, h1)), IMul(e, h2)))
  {
    ExpandOpening(t, d, u1, h1, b1);
    ExpandOpening(t, e, u2, h2, b2);
    SpreadI(t, h0, d * h1, e * h2);
    assert t * (d * h1) == d * (t * h1) && t * (e * h2) == e * (t * h2);
  }

  lemma ExpandOpening(t: int, d: int, u: int, h: int, b: int)
    ensures d * (t * h + b - u * h) == d * (t * h) + d * b - (u * d) * h
  {
  }

  lemma SpreadI(t: int, a: int, b: int, c: int)
    ensures t * (a + b + c) == t * a + t * b + t * c
  {
  }

  /** The batched equation holds for every honest opening, whatever the challenges. */
  lemma HonestPairing(key: Key, g: Pt, tau: Fe, C: Pt, ps: seq<Vec>, r: Fe, q: Fe, d: Fe)
    requires |ps| >= 1 && |ps[0]| > 0 && forall i :: 0 <= i < |ps| ==> |ps[i]| <= |ps[0]| <= |key.ck|
    requires IsSrs(key.ck, tau, g) && C == Commit(key, ps[0], 0)
    ensures var w := OpenBatch(key, Batched(ps, q, |ps|), r);
      LeftSide(C, Argument(Commitments(key, ps[1..]), w, Triples(ps, r)), g, r, q, d) == Smul(tau, RightSide(w, d))
  {
    hide *;
    BatchedLength(ps, q);
    var b := Batched(ps, q, |ps|);
    var w := OpenBatch(key, b, r);
    OpenBatchIs(key, b, r);
    var d1 := Mul(d, d);
    var (h0, h1, h2) := (Eval(Quotient(b, r), tau), Eval(Quotient(b, Neg(r)), tau), Eval(Quotient(b, Mul(r, r)), tau));
    OpenMeaning(key, b, r, tau, g);
    OpenMeaning(key, b, Neg(r), tau, g);
    OpenMeaning(key, b, Mul(r, r), tau, g);
    var m := Add(Add(1, d), d1);
    CommitmentPart(key, g, tau, C, ps, q, m);
    WitnessPart(w, g, r, d, d1, h0, h1, h2, Eval(b, r), Eval(b, Neg(r)), Eval(b, Mul(r, r)));
    LeftSideSplit(C, Commitments(key, ps[1..]), w, ps, g, r, q, d);
    BatchedEquation(tau, Eval(b, tau), d, r, Neg(r), Mul(r, r), h0, h1, h2, Eval(b, r), Eval(b, Neg(r)), Eval(b, Mul(r, r)));
    RightPart(w, g, d, h0, h1, h2);
    SmulFMul(tau, Add(Add(h0, Mul(d, h1)), Mul(d1, h2)), g);
    SmulFAdd(Mul(m, Eval(b, tau)), TailValue(r, d, d1, h0, h1, h2, Eval(b, r), Eval(b, Neg(r)), Eval(b, Mul(r, r))), g);
    TailValueIs(r, d, d1, h0, h1, h2, Eval(b, r), Eval(b, Neg(r)), Eval(b, Mul(r, r)));
  }

  lemma BatchedLength(ps: seq<Vec>, q: Fe)
    requires |ps| >= 1 && forall i :: 0 <= i < |ps| ==> |ps[i]| <= |ps[0]|
    ensures |Batched(ps, q, |ps|)| == |ps[0]|
  {
  }

  lemma OpenBatchIs(key: Key, b: Vec, r: Fe)
    requires 0 < |b| <= |key.ck|
    ensures OpenBatch(key, b, r) == Witnesses(Open(key, b, r), Open(key, b, Neg(r)), Open(key, b, Mul(r, r)))
  {
  }

  function TailValue(r: Fe, d: Fe, d1: Fe, h0: Fe, h1: Fe, h2: Fe, b0: Fe, b1: Fe, b2: Fe): Fe {
    Sub(Add(Add(Mul(r, h0), Mul(Mul(Neg(r), d), h1)), Mul(Mul(Mul(r, r), d1), h2)),
        Add(Add(b0, Mul(d, b1)), Mul(d1, b2)))
  }

  lemma TailValueIs(r: Fe, d: Fe, d1: Fe, h0: Fe, h1: Fe, h2: Fe, b0: Fe, b1: Fe, b2: Fe)
    ensures TailValue(r, d, d1, h0, h1, h2, b0, b1, b2)
         == Sub(Add(Add(Mul(r, h0), Mul(Mul(Neg(r), d), h1)), Mul(Mul(Mul(r, r), d1), h2)),
                Add(Add(b0, Mul(d, b1)), Mul(d1, b2)))
  {
  }

  /** The commitments, weighted by the powers of q. */
  lemma CommitmentPart(key: Key, g: Pt, tau: Fe, C: Pt, ps: seq<Vec>, q: Fe, m: Fe)
    requires |ps| >= 1 && forall i :: 0 <= i < |ps| ==> |ps[i]| <= |ps[0]| <= |key.ck|
    requires IsSrs(key.ck, tau, g) && C == Commit(key, ps[0], 0)
    ensures Msm(Geometric(m, q, |ps|), [C] + Commitments(key, ps[1..]))
         == Smul(Mul(m, Eval(Batched(ps, q, |ps|), tau)), g)
  {
    hide Mul, Add, Eval, Msm, Smul, Plus, Commit, Geometric, Batched, IsSrs;
    var pts := [C] + Commitments(key, ps[1..]);
    var e := Evals(ps, tau);
    forall i | 0 <= i < |pts| ensures pts[i] == Smul(e[i], g) {
      CommitIsValue(key, ps[i], tau, g);
    }
    MsmOfMultiples(Geometric(m, q, |ps|), pts, e, g);
    GeometricDot(m, q, e);
    BatchedValue(ps, q, |ps|, tau);
    assert ps[..|ps|] == ps;
  }

  /** The witnesses and the generator. */
  lemma WitnessPart(w: Witnesses, g: Pt, r: Fe, d: Fe, d1: Fe, h0: Fe, h1: Fe, h2: Fe, b0: Fe, b1: Fe, b2: Fe)
    requires w == Witnesses(Smul(h0, g), Smul(h1, g), Smul(h2, g))
    ensures Msm([r, Mul(Neg(r), d), Mul(Mul(r, r), d1), Neg(Add(Add(b0, Mul(d, b1)), Mul(d1, b2)))],
                [w.w0, w.w1, w.w2] + [g])
         == Smul(TailValue(r, d, d1, h0, h1, h2, b0, b1, b2), g)
  {
    hide Mul, Add, Sub, Neg, Msm, Smul, Plus, Dot;
    var values := Add(Add(b0, Mul(d, b1)), Mul(d1, b2));
    var s: Vec := [r, Mul(Neg(r), d), Mul(Mul(r, r), d1), Neg(values)];
    var e: Vec := [h0, h1, h2, 1];
    SmulSmall(g);
    MsmOfMultiples(s, [w.w0, w.w1, w.w2] + [g], e, g);
    DotFour(s, e);
    FourToDifference(Mul(s[0], h0), Mul(s[1], h1), Mul(s[2], h2), values);
  }

  lemma DotFour(s: Vec, e: Vec)
    requires |s| == |e| == 4
    ensures Dot(s, e) == Add(Mul(s[0], e[0]), Add(Mul(s[1], e[1]), Add(Mul(s[2], e[2]), Add(Mul(s[3], e[3]), 0))))
  {
    hide Mul, Add;
    assert Dot(s[1..][1..][1..][1..], e[1..][1..][1..][1..]) == 0;
    assert Dot(s[1..][1..][1..], e[1..][1..][1..]) == Add(Mul(s[3], e[3]), 0);
    assert Dot(s[1..][1..], e[1..][1..]) == Add(Mul(s[2], e[2]), Add(Mul(s[3], e[3]), 0));
  }

  lemma FourToDifference(a: Fe, b: Fe, c: Fe, v: Fe)
    ensures Add(a, Add(b, Add(c, Add(Mul(Neg(v), 1), 0)))) == Sub(Add(Add(a, b), c), v)
  {
    MulOne(Neg(v));
    hide Mul;
  }

  lemma LeftSideSplit(C: Pt, com: seq<Pt>, w: Witnesses, ps: seq<Vec>, g: Pt, r: Fe, q: Fe, d: Fe)
    requires |com| + 1 == |ps| && forall i :: 0 <= i < |ps| ==> |ps[i]| <= |ps[0]|
    ensures var b := Batched(ps, q, |ps|);
      var d1 := Mul(d, d);
      LeftSide(C, Argument(com, w, Triples(ps, r)), g, r, q, d)
      == Plus(Msm(Geometric(Add(Add(1, d), d1), q, |ps|), [C] + com),
              Msm([r, Mul(Neg(r), d), Mul(Mul(r, r), d1),
                   Neg(Add(Add(Eval(b, r), Mul(d, Eval(b, Neg(r)))), Mul(d1, Eval(b, Mul(r, r)))))],
                  [w.w0, w.w1, w.w2] + [g]))
  {
    hide Mul, Add, Neg, Msm, Smul, Plus, Eval, Geometric, Batched, Triples, Column;
    var d1 := Mul(d, d);
    ColumnsAreEvals(ps, r);
    BatchedValue(ps, q, |ps|, r);
    BatchedValue(ps, q, |ps|, Neg(r));
    BatchedValue(ps, q, |ps|, Mul(r, r));
    assert ps[..|ps|] == ps;
    var values := Add(Add(Eval(Evals(ps, r), q), Mul(d, Eval(Evals(ps, Neg(r)), q))), Mul(d1, Eval(Evals(ps, Mul(r, r)), q)));
    var tail: Vec := [r, Mul(Neg(r), d), Mul(Mul(r, r), d1), Neg(values)];
    assert [C] + com + [w.w0, w.w1, w.w2] + [g] == ([C] + com) + ([w.w0, w.w1, w.w2] + [g]);
    MsmConcat(Geometric(Add(Add(1, d), d1), q, |ps|), tail, [C] + com, [w.w0, w.w1, w.w2] + [g]);
  }

  lemma RightPart(w: Witnesses, g: Pt, d: Fe, h0: Fe, h1: Fe, h2: Fe)
    requires w == Witnesses(Smul(h0, g), Smul(h1, g), Smul(h2, g))
    ensures RightSide(w, d) == Smul(Add(Add(h0, Mul(d, h1)), Mul(Mul(d, d), h2)), g)
  {
    hide Mul, Add, Plus, Smul;
    SmulFMul(d, h1, g);
    SmulFMul(Mul(d, d), h2, g);
    SmulFAdd(h0, Mul(d, h1), g);
    SmulFAdd(Add(h0, Mul(d, h1)), Mul(Mul(d, d), h2), g);
  }

  /** What the verifier does with an honest argument: for every table of length 2^ell,
      point, claimed value and oracle, it accepts exactly when the claimed value is the
      multilinear evaluation, or the first challenge is zero. */
  lemma HonestRunAcceptsExactly(key: Key, g: Pt, tau: Fe, C: Pt, p: Vec, xs: Vec, y: Fe, oracle: Oracle<Msg>, log: Log<Msg>)
    requires |p| == Pow2(|xs|) <= |key.ck| && |xs| >= 1
    requires IsSrs(key.ck, tau, g) && C == Commit(key, p, 0)
    ensures var arg := ProveSpec(key, p, xs, oracle, log);
      VerifySpec(g, tau, C, xs, y, arg, oracle, log) == Accepted
      <==> oracle(LogR(arg.com, log)) == 0 || y == Mle(p, xs)
  {
    hide Mle, Tables, Commit, Commitments, Batched, OpenBatch, LeftSide, RightSide, ChainHolds, Triples, Smul, IsSrs;
    TableSizes(p, xs);
    var ps := Tables(p, xs);
    var com := Commitments(key, ps[1..]);
    var r := oracle(LogR(com, log));
    var v := Triples(ps, r);
    var q := oracle(LogQ(com, v, log));
    BatchedLength(ps, q);
    var w := OpenBatch(key, Batched(ps, q, |ps|), r);
    ChainEndsAtMle(p, xs, r, y);
    HonestPairing(key, g, tau, C, ps, r, q, oracle(LogD(com, v, w, log)));
  }

  /** Completeness. */
  lemma Completeness(key: Key, g: Pt, tau: Fe, C: Pt, p: Vec, xs: Vec, oracle: Oracle<Msg>, log: Log<Msg>)
    requires |p| == Pow2(|xs|) <= |key.ck| && |xs| >= 1
    requires IsSrs(key.ck, tau, g) && C == Commit(key, p, 0)
    ensures VerifySpec(g, tau, C, xs, Mle(p, xs), ProveSpec(key, p, xs, oracle, log), oracle, log) == Accepted
  {
    hide *;
    HonestRunAcceptsExactly(key, g, tau, C, p, xs, Mle(p, xs), oracle, log);
  }

  // -------------------------------------------------------------------- prover

  /** Horner's method from the top coefficient down. */
  method PolyEval(f: Vec, u: Fe) returns (acc: Fe)
    ensures acc == Eval(f, u)
  {
    hide Mul, Add;
    acc := 0;
    var i := |f|;
    while i > 0
      invariant 0 <= i <= |f|
      invariant acc == Eval(f[i..], u)
    {
      i := i - 1;
      HornerStep(f, u, i);
      acc := Add(Mul(acc, u), f[i]);
    }
    assert f[0..] == f;
  }

  lemma HornerStep(f: Vec, u: Fe, i: nat)
    requires i < |f|
    ensures Eval(f[i..], u) == Add(Mul(Eval(f[i + 1..], u), u), f[i])
  {
    hide Mul;
    assert f[i..][1..] == f[i + 1..];
    MulComm(u, Eval(f[i + 1..], u));
    AddComm(f[i], Mul(u, Eval(f[i + 1..], u)));
  }

  method NewVector(n: nat) returns (a: array<Fe>)
    ensures fresh(a) && a.Length == n
  {
    a := new Fe[n](_ => 0);
  }

  method FoldOnce(p: Vec, x: Fe) returns (q: Vec)
    ensures q == FoldTable(p, x)
  {
    hide Mul, Add, Sub;
    var a := NewVector(|p| / 2);
    for j := 0 to |p| / 2
      invariant forall i :: 0 <= i < j ==> a[i] == FoldTable(p, x)[i]
    {
      a[j] := Add(Mul(x, Sub(p[2 * j + 1], p[2 * j])), p[2 * j]);
    }
    q := a[..];
  }

  method FoldAll(p: Vec, xs: Vec) returns (polys: seq<Vec>)
    requires |p| == Pow2(|xs|) && |xs| >= 1
    ensures polys == Tables(p, xs)
  {
    hide Tables, FoldTable, Pow2, Mle;
    var ell := |xs|;
    polys := [p];
    assert xs[..ell] == xs;
    for i := 0 to ell - 1
      invariant |polys| == i + 1 && |polys[i]| == Pow2(ell - i)
      invariant Tables(p, xs) == polys[..i] + Tables(polys[i], xs[..ell - i])
    {
      TablesUnfold(polys[i], xs[..ell - i]);
      assert xs[..ell - i][..ell - i - 1] == xs[..ell - i - 1];
      var next := FoldOnce(polys[i], xs[ell - i - 1]);
      assert (polys + [next])[..i + 1] == polys[..i] + [polys[i]];
      polys := polys + [next];
    }
    TablesLast(polys[ell - 1], xs[..1]);
    assert polys == polys[..ell - 1] + [polys[ell - 1]];
  }

  lemma TablesUnfold(p: Vec, xs: Vec)
    requires |p| == Pow2(|xs|) && |xs| >= 2
    ensures |FoldTable(p, xs[|xs| - 1])| == Pow2(|xs| - 1)
    ensures Tables(p, xs) == [p] + Tables(FoldTable(p, xs[|xs| - 1]), xs[..|xs| - 1])
  {
  }

  lemma TablesLast(p: Vec, xs: Vec)
    requires |p| == Pow2(|xs|) && |xs| == 1
    ensures Tables(p, xs) == [p]
  {
  }

  /** a += s * v, in place. */
  method ScalarVectorMulAdd(a: array<Fe>, v: Vec, s: Fe)
    requires |v| <= a.Length
    modifies a
    ensures a[..] == MulAddVec(old(a[..]), v, s)
  {
    hide Mul, Add;
    for i := 0 to |v|
      invariant forall k :: 0 <= k < i ==> a[k] == Add(old(a[k]), Mul(s, v[k]))
      invariant forall k :: i <= k < a.Length ==> a[k] == old(a[k])
    {
      a[i] := Add(a[i], Mul(s, v[i]));
    }
  }

  method BatchPolynomial(f: seq<Vec>, q: Fe) returns (b: Vec)
    requires |f| >= 1 && forall i :: 0 <= i < |f| ==> |f[i]| <= |f[0]|
    ensures b == Batched(f, q, |f|)
  {
    hide Mul, Pow, MulAddVec;
    var qPowers := BatchChallengePowers(q, |f|);
    var a := Copy(f[0]);
    for i := 1 to |f|
      invariant a[..] == Batched(f, q, i)
    {
      ScalarVectorMulAdd(a, f[i], qPowers[i]);
    }
    b := a[..];
  }

  method BatchChallengePowers(q: Fe, k: nat) returns (powers: Vec)
    requires k >= 1
    ensures |powers| == k && forall i :: 0 <= i < k ==> powers[i] == Pow(q, i)
  {
    hide Mul, Pow;
    PowZeroIs(q);
    powers := [1];
    for i := 1 to k
      invariant |powers| == i && forall j :: 0 <= j < i ==> powers[j] == Pow(q, j)
    {
      PowSnoc(q, i - 1);
      powers := powers + [Mul(powers[i - 1], q)];
    }
  }

  method EvaluateAll(f: seq<Vec>, r: Fe) returns (v: seq<Triple>)
    ensures v == Triples(f, r)
  {
    hide Mul, Eval, Neg;
    v := [];
    for i := 0 to |f|
      invariant |v| == i && forall j :: 0 <= j < i ==> v[j] == TripleOf(f[j], r)
    {
      var pos := PolyEval(f[i], r);
      var neg := PolyEval(f[i], Neg(r));
      var sq := PolyEval(f[i], Mul(r, r));
      v := v + [Triple(pos, neg, sq)];
    }
  }

  /** How many chunks a division aims at. */
  const DEFAULT_TARGET_CHUNKS := 1024

  method KzgOpen(key: Key, f: Vec, u: Fe) returns (w: Pt)
    requires 0 < |f| <= |key.ck|
    ensures w == Open(key, f, u)
  {
    var h := DivByMonomial(f, u, DEFAULT_TARGET_CHUNKS);
    w := Commit(key, h, 0);
  }

  method Prove(key: Key, p: Vec, xs: Vec, tr: Transcript<Msg>) returns (arg: Argument)
    requires |p| == Pow2(|xs|) <= |key.ck| && |xs| >= 1
    modifies tr
    ensures arg == ProveSpec(key, p, xs, tr.oracle, old(tr.log))
    ensures tr.log == LogD(arg.com, arg.v, arg.w, old(tr.log)) + [Squeezed]
  {
    hide Tables, Triples, Batched, Commit, Open, Eval, Mul, Neg;
    var ps := FoldAll(p, xs);
    TableSizes(p, xs);
    var com := Commitments(key, ps[1..]);
    tr.Absorb(AbsorbC(com));
    var r := tr.Squeeze();
    var v := EvaluateAll(ps, r);
    tr.Absorb(AbsorbV(v));
    var q := tr.Squeeze();
    var b := BatchPolynomial(ps, q);
    var w0 := KzgOpen(key, b, r);
    var w1 := KzgOpen(key, b, Neg(r));
    var w2 := KzgOpen(key, b, Mul(r, r));
    var w := Witnesses(w0, w1, w2);
    tr.Absorb(AbsorbW(w));
    var d := tr.Squeeze();
    arg := Argument(com, w, v);
  }

  // ------------------------------------------------------------------ verifier

  method CheckChain(r: Fe, xs: Vec, v: seq<Triple>, y: Fe) returns (ok: bool)
    requires |v| == |xs|
    ensures ok == ChainHolds(r, xs, v, y)
  {
    hide Mul, Add, Sub;
    for i := 0 to |xs|
      invariant forall j :: 0 <= j < i ==> Link(r, xs, v, y, j)
    {
      var next := if i + 1 < |v| then v[i + 1].sq else y;
      if Mul(Dbl(r), next)
        != Add(Mul(Mul(r, Sub(1, xs[|xs| - i - 1])), Add(v[i].pos, v[i].neg)),
               Mul(xs[|xs| - i - 1], Sub(v[i].pos, v[i].neg)))
      {
        assert !Link(r, xs, v, y, i);
        return false;
      }
    }
    ok := true;
  }

  method PowersFrom(m: Fe, q: Fe, k: nat) returns (s: Vec)
    ensures s == Geometric(m, q, k)
  {
    hide Mul;
    s := [];
    var next := m;
    for i := 0 to k
      invariant Geometric(m, q, k) == s + Geometric(next, q, k - i)
    {
      s := s + [next];
      next := Mul(next, q);
    }
  }

  method Verify(g: Pt, tau: Fe, C: Pt, xs: Vec, y: Fe, arg: Argument, tr: Transcript<Msg>) returns (o: Verdict)
    requires |xs| >= 1
    modifies tr
    ensures o == VerifySpec(g, tau, C, xs, y, arg, tr.oracle, old(tr.log))
  {
    hide Mul, Add, Neg, Msm, Eval, Geometric, ChainHolds, Smul, Plus, Column;
    tr.Absorb(AbsorbC(arg.com));
    var r := tr.Squeeze();
    if |arg.v| != |xs| || |arg.com| != |xs| - 1 {
      return InvalidLengths;
    }
    var consistent := CheckChain(r, xs, arg.v, y);
    if !consistent {
      return InconsistentValues;
    }
    tr.Absorb(AbsorbV(arg.v));
    var q := tr.Squeeze();
    tr.Absorb(AbsorbW(arg.w));
    var d := tr.Squeeze();
    var d1 := Sq(d);
    var multiplied := PowersFrom(Add(Add(1, d), d1), q, |xs|);
    var b0 := PolyEval(Column(arg.v, 0), q);
    var b1 := PolyEval(Column(arg.v, 1), q);
    var b2 := PolyEval(Column(arg.v, 2), q);
    var left := Msm(multiplied + [r, Mul(Neg(r), d), Mul(Mul(r, r), d1), Neg(Add(Add(b0, Mul(d, b1)), Mul(d1, b2)))],
                    [C] + arg.com + [arg.w.w0, arg.w.w1, arg.w.w2] + [g]);
    var right := Plus(Plus(arg.w.w0, Smul(d, arg.w.w1)), Smul(d1, arg.w.w2));
    o := if PairingHolds(left, right, tau) then Accepted else PairingFailed;
  }
}
