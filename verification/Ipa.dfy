/** The inner product argument: prover, verifier, and completeness. */
module Ipa {
  import opened PrimeField
  import opened FieldLaws
  import opened PrimeGroup
  import opened Vectors
  import opened Pedersen
  import opened BatchInvert
  import opened Wrappers
  import opened PowersOfTwo
  import opened Transcripts

  // ----------------------------------------------------------------- transcript

  datatype Msg = DomSep | AbsorbU(comm: Pt, c: Fe) | AbsorbL(L: Pt) | AbsorbR(R: Pt)

  // ------------------------------------------------------- instances and proofs

  datatype Instance = Instance(commA: Pt, b: Vec, c: Fe)
  datatype Argument = Argument(L: seq<Pt>, R: seq<Pt>, aHat: Fe)

  /** `Panic` is an `unwrap` on the inverse of a zero challenge. */
  datatype Outcome<+T> = Ok(value: T) | InvalidInputLength | InvalidPCS | InternalError | Panic

  // ------------------------------------------------------------- specification

  /** One round of folding vectors of length 2h, with the challenge r and its inverse s. */
  function FoldA(a: Vec, h: nat, r: Fe, s: Fe): (c: Vec)
    requires |a| == h + h
    ensures |c| == h
  {
    VAdd(VScale(r, a[..h]), VScale(s, a[h..]))
  }

  function FoldB(b: Vec, h: nat, r: Fe, s: Fe): (c: Vec)
    requires |b| == h + h
    ensures |c| == h
  {
    VAdd(VScale(s, b[..h]), VScale(r, b[h..]))
  }

  /** The prover's vectors and generators at the start of a round. */
  datatype State = State(a: Vec, b: Vec, key: Key)

  predicate Sized(st: State, n: nat, u: Key) {
    |st.a| == |st.b| == |st.key.ck| == n && |u.ck| == 1
  }

  function NextState(st: State, h: nat, u: Key, r: Fe): (next: State)
    requires Sized(st, h + h, u)
    ensures Sized(next, h, u)
  {
    hide *;
    State(FoldA(st.a, h, r, Inv(r)), FoldB(st.b, h, r, Inv(r)), Fold(st.key, h, Inv(r), r))
  }

  function LeftMsg(st: State, h: nat, u: Key): Pt
    requires Sized(st, h + h, u)
  {
    CommitRange(st.key, h, h + h, st.a[..h], u, Dot(st.a[..h], st.b[h..]))
  }

  function RightMsg(st: State, h: nat, u: Key): Pt
    requires Sized(st, h + h, u)
  {
    CommitRange(st.key, 0, h, st.a[h..], u, Dot(st.a[h..], st.b[..h]))
  }

  /** What the transcript holds when the challenge of the round is squeezed. */
  function RoundLog(st: State, h: nat, u: Key, log: Log<Msg>): Log<Msg>
    requires Sized(st, h + h, u)
  {
    log + [Said(AbsorbL(LeftMsg(st, h, u)))] + [Said(AbsorbR(RightMsg(st, h, u)))]
  }

  /** The prover's output: the argument, the challenges met, and the final log. */
  datatype Rounds = Rounds(arg: Argument, rs: seq<Fe>, log: Log<Msg>)

  predicate Balanced(x: Rounds, k: nat) {
    |x.arg.L| == |x.arg.R| == |x.rs| == k
  }

  function ProveRounds(k: nat, st: State, u: Key, oracle: Oracle<Msg>, log: Log<Msg>): (o: Outcome<Rounds>)
    requires Sized(st, Pow2(k), u)
    ensures o.Panic? || (o.Ok? && Balanced(o.value, k))
    decreases k
  {
    hide *;
    if k == 0 then
      OneEntry(st, u);
      BalancedStart(st.a[0], log);
      Ok(Rounds(Argument([], [], st.a[0]), [], log))
    else
      Pow2Double(k - 1);
      var h := Pow2(k - 1);
      var r := oracle(RoundLog(st, h, u, log));
      if r == 0 then Panic
      else
        var rest := ProveRounds(k - 1, NextState(st, h, u, r), u, oracle, RoundLog(st, h, u, log) + [Squeezed]);
        BalancedStep(LeftMsg(st, h, u), RightMsg(st, h, u), r, rest, k);
        Prepend(LeftMsg(st, h, u), RightMsg(st, h, u), r, rest)
  }

  lemma OneEntry(st: State, u: Key)
    requires Sized(st, Pow2(0), u)
    ensures |st.a| == 1
  {
  }

  lemma BalancedStart(a: Fe, log: Log<Msg>)
    ensures Balanced(Rounds(Argument([], [], a), [], log), 0)
  {
  }

  lemma BalancedStep(L: Pt, R: Pt, r: Fe, o: Outcome<Rounds>, k: nat)
    requires k > 0 && (o.Panic? || (o.Ok? && Balanced(o.value, k - 1)))
    ensures var p := Prepend(L, R, r, o); p.Panic? || (p.Ok? && Balanced(p.value, k))
  {
  }

  function Prepend(L: Pt, R: Pt, r: Fe, o: Outcome<Rounds>): Outcome<Rounds> {
    match o
    case Ok(x) => Ok(Rounds(Argument([L] + x.arg.L, [R] + x.arg.R, x.arg.aHat), [r] + x.rs, x.log))
    case _ => o
  }

  function ProveSpec(k: nat, key: Key, uKey: Key, U: Instance, a: Vec, oracle: Oracle<Msg>, log: Log<Msg>): Outcome<Rounds>
    requires |U.b| == Pow2(k) <= |key.ck| && |a| == |U.b| && |uKey.ck| == 1
  {
    var log1 := log + [Said(DomSep)] + [Said(AbsorbU(U.commA, U.c))];
    ProveRounds(k, State(a, U.b, Prefix(key, |U.b|)), Scale(uKey, oracle(log1)), oracle, log1 + [Squeezed])
  }

  /** The verifier's challenges: one per pair of messages. */
  function Challenges(L: seq<Pt>, R: seq<Pt>, oracle: Oracle<Msg>, log: Log<Msg>): (rs: seq<Fe>)
    requires |L| == |R|
    ensures |rs| == |L|
  {
    if |L| == 0 then []
    else
      var log1 := log + [Said(AbsorbL(L[0]))] + [Said(AbsorbR(R[0]))];
      [oracle(log1)] + Challenges(L[1..], R[1..], oracle, log1 + [Squeezed])
  }

  /** Entry i of the verifier's tensor vector, by the recurrence on bit positions. */
  function TensorEntry(rs: seq<Fe>, i: nat): Fe
    requires i < Pow2(|rs|)
    decreases i
  {
    if i == 0 then ProdInv(rs)
    else
      Log2Bound(|rs|, i);
      var p := Log2(i);
      Mul(TensorEntry(rs, i - Pow2(p)), Sq(rs[|rs| - 1 - p]))
  }

  function ProdInv(rs: seq<Fe>): Fe {
    Prod(Invs(rs))
  }

  function Invs(rs: seq<Fe>): (v: seq<Fe>)
    ensures |v| == |rs|
  {
    seq(|rs|, i requires 0 <= i < |rs| => Inv(rs[i]))
  }

  function Squares(rs: seq<Fe>): (v: seq<Fe>)
    ensures |v| == |rs|
  {
    seq(|rs|, i requires 0 <= i < |rs| => Mul(rs[i], rs[i]))
  }

  lemma Log2Bound(k: nat, i: nat)
    requires 1 <= i < Pow2(k)
    ensures Log2(i) < k
  {
    if Log2(i) >= k { Pow2Mono(k, Log2(i)); }
  }

  function TensorVector(rs: seq<Fe>): (s: Vec)
    ensures |s| == Pow2(|rs|)
  {
    seq(Pow2(|rs|), i requires 0 <= i < Pow2(|rs|) => TensorEntry(rs, i))
  }

  /** Accepted exactly when the weighted messages and the instance commitment add up to
      aHat times the fully folded generator and the fully folded claim. */
  function VerifyWith(rs: seq<Fe>, key: Key, u: Key, U: Instance, arg: Argument): Outcome<()>
    requires |U.b| == Pow2(|rs|) <= |key.ck| && |u.ck| == 1 && |arg.L| == |arg.R| == |rs|
  {
    var (s, w) := (TensorVector(rs), u.ck[0]);
    var left := Plus(WeightedMessages(Rounds(arg, rs, [])), Plus(U.commA, Smul(U.c, w)));
    if left == Smul(arg.aHat, Plus(Msm(s, key.ck[..|U.b|]), Smul(Dot(U.b, s), w))) then Ok(())
    else InvalidPCS
  }

  function VerifySpec(key: Key, uKey: Key, n: nat, U: Instance, arg: Argument, oracle: Oracle<Msg>, log: Log<Msg>): Outcome<()>
    requires |U.b| <= |key.ck| && |uKey.ck| == 1
  {
    if |U.b| != n || n != Pow2(|arg.L|) || |arg.L| != |arg.R| || |arg.L| >= 32 then InvalidInputLength
    else
      var log1 := log + [Said(DomSep)] + [Said(AbsorbU(U.commA, U.c))];
      var rs := Challenges(arg.L, arg.R, oracle, log1 + [Squeezed]);
      if Inverses(rs).None? then InternalError
      else VerifyWith(rs, key, Scale(uKey, oracle(log1)), U, arg)
  }

  // ---------------------------------------------- the tensor vector, recursively

  lemma ProdInvFirst(r: Fe, rs: seq<Fe>)
    ensures ProdInv([r] + rs) == Mul(Inv(r), ProdInv(rs))
  {
    assert Invs([r] + rs) == [Inv(r)] + Invs(rs);
    ProdFirst(Inv(r), Invs(rs));
  }

  lemma {:induction false} ProdFirst(x: Fe, v: seq<Fe>)
    ensures Prod([x] + v) == Mul(x, Prod(v))
  {
    hide Mul;
    if |v| == 0 {
      assert ([x] + v)[..0] == [];
      assert Prod([x] + v) == Mul(1, x);
      MulOne(x);
    } else {
      var w, y := v[..|v| - 1], v[|v| - 1];
      assert ([x] + v)[..|v|] == [x] + w;
      ProdFirst(x, w);
      MulAssoc(x, Prod(w), y);
    }
  }

  /** The first challenge scales the lower half by its inverse. */
  lemma {:induction false} TensorLow(r: Fe, rs: seq<Fe>, i: nat)
    requires i < Pow2(|rs|)
    ensures i < Pow2(|rs| + 1)
    ensures TensorEntry([r] + rs, i) == Mul(Inv(r), TensorEntry(rs, i))
    decreases i
  {
    hide Mul, Inv;
    if i == 0 {
      ProdInvFirst(r, rs);
    } else {
      Log2Bound(|rs|, i);
      var p := Log2(i);
      TensorLow(r, rs, i - Pow2(p));
      var q := Sq(rs[|rs| - 1 - p]);
      assert ([r] + rs)[|rs| - p] == rs[|rs| - 1 - p];
      MulAssoc(Inv(r), TensorEntry(rs, i - Pow2(p)), q);
    }
  }

  /** ... and the upper half by itself. */
  lemma TensorHigh(r: Fe, rs: seq<Fe>, j: nat)
    requires j < Pow2(|rs|) && r != 0
    ensures Pow2(|rs|) + j < Pow2(|[r] + rs|)
    ensures TensorEntry([r] + rs, Pow2(|rs|) + j) == Mul(r, TensorEntry(rs, j))
  {
    hide *;
    Pow2Double(|rs|);
    TensorTop([r] + rs, j);
    TensorLow(r, rs, j);
    TensorHighEntry(r, TensorEntry(rs, j));
  }

  lemma TensorTop(rs: seq<Fe>, j: nat)
    requires |rs| > 0 && j < Pow2(|rs| - 1)
    ensures Pow2(|rs| - 1) + j < Pow2(|rs|)
    ensures TensorEntry(rs, Pow2(|rs| - 1) + j) == Mul(TensorEntry(rs, j), Mul(rs[0], rs[0]))
  {
    hide *;
    var i := Pow2(|rs| - 1) + j;
    Pow2Double(|rs| - 1);
    Log2Unique(|rs| - 1, i);
    TensorEntryUnfold(rs, i);
    SquareAt(rs, 0);
  }

  lemma SquareAt(rs: seq<Fe>, i: nat)
    requires i < |rs|
    ensures Squares(rs)[i] == Mul(rs[i], rs[i])
  {
  }

  lemma TensorHighEntry(r: Fe, t: Fe)
    requires r != 0
    ensures Mul(Mul(Inv(r), t), Mul(r, r)) == Mul(r, t)
  {
    hide *;
    MulInv(r);
    MulSwap(Inv(r), t, r, r);
    MulComm(t, r);
    MulOne(Mul(r, t));
  }

  lemma TensorSplit(r: Fe, rs: seq<Fe>)
    requires r != 0
    ensures TensorVector([r] + rs) == VScale(Inv(r), TensorVector(rs)) + VScale(r, TensorVector(rs))
  {
    hide *;
    Pow2Double(|rs|);
    var t, n := TensorVector([r] + rs), Pow2(|rs|);
    var (low, high) := (VScale(Inv(r), TensorVector(rs)), VScale(r, TensorVector(rs)));
    forall i | 0 <= i < n ensures t[i] == low[i] { TensorLowAt(r, rs, i); }
    forall j | 0 <= j < n ensures t[n + j] == high[j] { TensorHighAt(r, rs, j); }
    JoinHalves(t, low, high);
  }

  lemma JoinHalves(w: Vec, u: Vec, v: Vec)
    requires |w| == |u| + |v|
    requires forall i :: 0 <= i < |u| ==> w[i] == u[i]
    requires forall j :: 0 <= j < |v| ==> w[|u| + j] == v[j]
    ensures w == u + v
  {
    forall i | |u| <= i < |w| ensures w[i] == v[i - |u|] {
      assert w[|u| + (i - |u|)] == v[i - |u|];
    }
  }

  lemma TensorLowAt(r: Fe, rs: seq<Fe>, i: nat)
    requires i < Pow2(|rs|) && Pow2(|[r] + rs|) == Pow2(|rs|) + Pow2(|rs|)
    ensures TensorVector([r] + rs)[i] == VScale(Inv(r), TensorVector(rs))[i]
  {
    hide *;
    TensorLow(r, rs, i);
    TensorVectorAt([r] + rs, i);
    TensorVectorAt(rs, i);
    VScaleAt(Inv(r), TensorVector(rs), i);
  }

  lemma TensorHighAt(r: Fe, rs: seq<Fe>, j: nat)
    requires r != 0 && j < Pow2(|rs|) && Pow2(|[r] + rs|) == Pow2(|rs|) + Pow2(|rs|)
    ensures TensorVector([r] + rs)[Pow2(|rs|) + j] == VScale(r, TensorVector(rs))[j]
  {
    hide *;
    TensorHigh(r, rs, j);
    TensorVectorAt([r] + rs, Pow2(|rs|) + j);
    TensorVectorAt(rs, j);
    VScaleAt(r, TensorVector(rs), j);
  }

  lemma TensorVectorAt(rs: seq<Fe>, i: nat)
    requires i < Pow2(|rs|)
    ensures TensorVector(rs)[i] == TensorEntry(rs, i)
  {
    hide TensorEntry, Pow2;
  }

  lemma VScaleAt(k: Fe, a: Vec, i: nat)
    requires i < |a|
    ensures VScale(k, a)[i] == Mul(k, a[i])
  {
    hide Mul;
  }

  // The fully folded generator and the fully folded b are products with the tensor
  // vector.

  lemma FoldKeyTensor(r: Fe, rs: seq<Fe>, n: nat, g: seq<Pt>)
    requires r != 0 && |g| == n + n && n == Pow2(|rs|)
    ensures Pow2(|rs| + 1) == |g|
    ensures Msm(TensorVector([r] + rs), g) == Msm(TensorVector(rs), PAdd(PScale(Inv(r), g[..n]), PScale(r, g[n..])))
  {
    hide *;
    Pow2Double(|rs|);
    var t, gL, gR := TensorVector(rs), g[..n], g[n..];
    TensorSplit(r, rs);
    assert g == gL + gR;
    MsmConcat(VScale(Inv(r), t), VScale(r, t), gL, gR);
    MsmScaleScalars(Inv(r), t, gL);
    MsmScaleScalars(r, t, gR);
    MsmAddPoints(t, PScale(Inv(r), gL), PScale(r, gR));
    MsmScalePoints(Inv(r), t, gL);
    MsmScalePoints(r, t, gR);
  }

  lemma FoldBTensor(r: Fe, rs: seq<Fe>, n: nat, b: Vec)
    requires r != 0 && |b| == n + n && n == Pow2(|rs|)
    ensures Pow2(|rs| + 1) == |b|
    ensures Dot(b, TensorVector([r] + rs)) == Dot(VAdd(VScale(Inv(r), b[..n]), VScale(r, b[n..])), TensorVector(rs))
  {
    hide *;
    Pow2Double(|rs|);
    var t, bL, bR := TensorVector(rs), b[..n], b[n..];
    TensorSplit(r, rs);
    assert b == bL + bR;
    DotConcat(bL, bR, VScale(Inv(r), t), VScale(r, t));
    DotScaleRight(Inv(r), bL, t);
    DotScaleRight(r, bR, t);
    DotAddLeft(VScale(Inv(r), bL), VScale(r, bR), t);
    DotScaleLeft(Inv(r), bL, t);
    DotScaleLeft(r, bR, t);
  }

  lemma FoldTensor(st: State, h: nat, u: Key, r: Fe, rs: seq<Fe>)
    requires Sized(st, h + h, u) && r != 0 && h == Pow2(|rs|)
    ensures Pow2(|rs| + 1) == h + h
    ensures Msm(TensorVector([r] + rs), st.key.ck) == Msm(TensorVector(rs), NextState(st, h, u, r).key.ck)
    ensures Dot(st.b, TensorVector([r] + rs)) == Dot(NextState(st, h, u, r).b, TensorVector(rs))
  {
    hide Msm, Dot, TensorVector, VScale, VAdd, PScale, PAdd, Inv, Pow2;
    FoldKeyTensor(r, rs, h, st.key.ck);
    FoldBTensor(r, rs, h, st.b);
  }

  // ------------------------------------------------------------ one round folds

  /** What the verifier tracks: the commitment to a plus <a, b> times u. */
  function Claim(a: Vec, b: Vec, g: seq<Pt>, u: Pt): Pt
    requires |a| == |b| == |g|
  {
    Plus(Msm(a, g), Smul(Dot(a, b), u))
  }

  lemma MsmHalf(x: Vec, y: Vec, r: Fe, s: Fe, t: Fe, g: seq<Pt>)
    requires |x| == |y| == |g|
    ensures Msm(VAdd(VScale(r, x), VScale(s, y)), PScale(t, g))
      == Plus(Smul(Mul(t, r), Msm(x, g)), Smul(Mul(t, s), Msm(y, g)))
  {
    hide *;
    MsmScalePoints(t, VAdd(VScale(r, x), VScale(s, y)), g);
    MsmAddScalars(VScale(r, x), VScale(s, y), g);
    MsmScaleScalars(r, x, g);
    MsmScaleScalars(s, y, g);
    SmulPlus(t, Smul(r, Msm(x, g)), Smul(s, Msm(y, g)));
    SmulFMul(t, r, Msm(x, g));
    SmulFMul(t, s, Msm(y, g));
  }

  lemma MsmRound(aL: Vec, aR: Vec, gL: seq<Pt>, gR: seq<Pt>, r: Fe, s: Fe)
    requires |aL| == |aR| == |gL| == |gR| && Mul(r, s) == 1
    ensures Msm(VAdd(VScale(r, aL), VScale(s, aR)), PAdd(PScale(s, gL), PScale(r, gR)))
      == Plus(Plus(Msm(aL, gL), Msm(aR, gR)),
              Plus(Smul(Mul(r, r), Msm(aL, gR)), Smul(Mul(s, s), Msm(aR, gL))))
  {
    hide *;
    var a := VAdd(VScale(r, aL), VScale(s, aR));
    MsmAddPoints(a, PScale(s, gL), PScale(r, gR));
    MsmHalf(aL, aR, r, s, s, gL);
    MsmHalf(aL, aR, r, s, r, gR);
    MulComm(r, s);
    SmulSmall(Msm(aL, gL));
    SmulSmall(Msm(aR, gR));
    var (A, B, C, D) := (Msm(aL, gL), Smul(Mul(s, s), Msm(aR, gL)), Smul(Mul(r, r), Msm(aL, gR)), Msm(aR, gR));
    PlusComm(C, D);
    PlusSwap(A, B, D, C);
    PlusComm(B, C);
  }

  lemma DotRound(aL: Vec, aR: Vec, bL: Vec, bR: Vec, r: Fe, s: Fe)
    requires |aL| == |aR| == |bL| == |bR| && Mul(r, s) == 1
    ensures Dot(VAdd(VScale(r, aL), VScale(s, aR)), VAdd(VScale(s, bL), VScale(r, bR)))
      == Add(Add(Dot(aL, bL), Dot(aR, bR)), Add(Mul(Mul(r, r), Dot(aL, bR)), Mul(Mul(s, s), Dot(aR, bL))))
  {
    hide *;
    var a := VAdd(VScale(r, aL), VScale(s, aR));
    DotAddRight(a, VScale(s, bL), VScale(r, bR));
    DotScaleRight(s, a, bL);
    DotScaleRight(r, a, bR);
    DotAddLeft(VScale(r, aL), VScale(s, aR), bL);
    DotAddLeft(VScale(r, aL), VScale(s, aR), bR);
    DotScaleLeft(r, aL, bL);
    DotScaleLeft(s, aR, bL);
    DotScaleLeft(r, aL, bR);
    DotScaleLeft(s, aR, bR);
    RoundDot(Dot(aL, bL), Dot(aR, bR), r, s, Dot(aL, bR), Dot(aR, bL));
    MulOne(Add(Dot(aL, bL), Dot(aR, bR)));
  }

  lemma RoundDot(p: Fe, q: Fe, r: Fe, s: Fe, x: Fe, y: Fe)
    ensures Add(Mul(s, Add(Mul(r, p), Mul(s, y))), Mul(r, Add(Mul(r, x), Mul(s, q))))
      == Add(Mul(Mul(r, s), Add(p, q)), Add(Mul(Mul(r, r), x), Mul(Mul(s, s), y)))
  {
    hide *;
    Hom();
    ROf(p); ROf(q); ROf(r); ROf(s); ROf(x); ROf(y);
    RoundDotI(p, q, r, s, x, y);
  }

  lemma RoundDotI(p: int, q: int, r: int, s: int, x: int, y: int)
    ensures IAdd(IMul(s, IAdd(IMul(r, p), IMul(s, y))), IMul(r, IAdd(IMul(r, x), IMul(s, q))))
      == IAdd(IMul(IMul(r, s), IAdd(p, q)), IAdd(IMul(IMul(r, r), x), IMul(IMul(s, s), y)))
  {
  }

  /** (X + Y) + (x + y), where X, x carry a factor m and Y, y a factor n. */
  lemma Regroup(m: Fe, n: Fe, X: Pt, Y: Pt, x: Pt, y: Pt)
    ensures Plus(Plus(Smul(m, X), Smul(n, Y)), Plus(Smul(m, x), Smul(n, y)))
      == Plus(Smul(m, Plus(X, x)), Smul(n, Plus(Y, y)))
  {
    hide *;
    PlusSwap(Smul(m, X), Smul(n, Y), Smul(m, x), Smul(n, y));
    SmulPlus(m, X, x);
    SmulPlus(n, Y, y);
  }

  /** One round adds r^2 L + r^-2 R to the claim. */
  lemma ClaimRound(st: State, h: nat, u: Key, r: Fe)
    requires Sized(st, h + h, u) && r != 0
    ensures var next := NextState(st, h, u, r);
      Claim(next.a, next.b, next.key.ck, u.ck[0])
      == Plus(Plus(Smul(Mul(r, r), LeftMsg(st, h, u)), Smul(Mul(Inv(r), Inv(r)), RightMsg(st, h, u))),
              Claim(st.a, st.b, st.key.ck, u.ck[0]))
  {
    hide Dot, Msm, VScale, VAdd, PScale, PAdd, Inv, Mul, Add, Plus, Smul;
    var (s, w, a, b, g) := (Inv(r), u.ck[0], st.a, st.b, st.key.ck);
    var (aL, aR, bL, bR, gL, gR) := (a[..h], a[h..], b[..h], b[h..], g[..h], g[h..]);
    MulInv(r);
    MsmRound(aL, aR, gL, gR, r, s);
    DotRound(aL, aR, bL, bR, r, s);
    assert a == aL + aR && b == bL + bR && g == gL + gR && g[0..h] == gL && g[h..h + h] == gR;
    MsmConcat(aL, aR, gL, gR);
    DotConcat(aL, aR, bL, bR);
    ClaimRoundPoints(Msm(a, g), Mul(r, r), Msm(aL, gR), Mul(s, s), Msm(aR, gL), Dot(a, b), Dot(aL, bR), Dot(aR, bL), w);
  }

  lemma ClaimRoundPoints(A: Pt, m: Fe, X: Pt, n: Fe, Y: Pt, d: Fe, x: Fe, y: Fe, w: Pt)
    ensures Plus(Plus(A, Plus(Smul(m, X), Smul(n, Y))), Smul(Add(d, Add(Mul(m, x), Mul(n, y))), w))
      == Plus(Plus(Smul(m, Plus(X, Smul(x, w))), Smul(n, Plus(Y, Smul(y, w)))), Plus(A, Smul(d, w)))
  {
    hide *;
    SmulFAdd(d, Add(Mul(m, x), Mul(n, y)), w);
    SmulFAdd(Mul(m, x), Mul(n, y), w);
    SmulFMul(m, x, w);
    SmulFMul(n, y, w);
    PlusSwap(A, Plus(Smul(m, X), Smul(n, Y)), Smul(d, w), Plus(Smul(Mul(m, x), w), Smul(Mul(n, y), w)));
    Regroup(m, n, X, Y, Smul(x, w), Smul(y, w));
    PlusComm(Plus(A, Smul(d, w)), Plus(Smul(m, Plus(X, Smul(x, w))), Smul(n, Plus(Y, Smul(y, w)))));
  }

  // ----------------------------------------------------------- all rounds fold

  /** The messages of all rounds, weighted with the squared challenges, carry the
      initial claim to the one the verifier computes from the tensor vector. */
  lemma {:induction false} RoundsFold(k: nat, st: State, u: Key, oracle: Oracle<Msg>, log: Log<Msg>)
    requires Sized(st, Pow2(k), u) && ProveRounds(k, st, u, oracle, log).Ok?
    ensures var x := ProveRounds(k, st, u, oracle, log).value;
      FinalClaim(x, st, u) == Plus(WeightedMessages(x), Claim(st.a, st.b, st.key.ck, u.ck[0]))
    decreases k
  {
    hide Mul, Add, Inv, Plus, Smul, Claim, NextState, LeftMsg, RightMsg, TensorVector, Msm, Dot, Squares, RoundLog;
    var x := ProveRounds(k, st, u, oracle, log).value;
    if k == 0 {
      RoundsFoldBase(st.a, st.b, st.key.ck, u.ck[0]);
    } else {
      var h := Pow2(k - 1);
      var log1 := RoundLog(st, h, u, log);
      var r := oracle(log1);
      var next := NextState(st, h, u, r);
      var y := ProveRounds(k - 1, next, u, oracle, log1 + [Squeezed]).value;
      RoundsFold(k - 1, next, u, oracle, log1 + [Squeezed]);
      FoldTensor(st, h, u, r, y.rs);
      ClaimRound(st, h, u, r);
      MessagesCons(LeftMsg(st, h, u), RightMsg(st, h, u), r, y, Claim(st.a, st.b, st.key.ck, u.ck[0]));
    }
  }

  function FinalClaim(x: Rounds, st: State, u: Key): Pt
    requires Sized(st, Pow2(|x.rs|), u)
  {
    var t := TensorVector(x.rs);
    Plus(Smul(x.arg.aHat, Msm(t, st.key.ck)), Smul(Mul(x.arg.aHat, Dot(st.b, t)), u.ck[0]))
  }

  function WeightedMessages(x: Rounds): Pt
    requires |x.rs| == |x.arg.L| == |x.arg.R|
  {
    Plus(Msm(Squares(x.rs), x.arg.L), Msm(Squares(Invs(x.rs)), x.arg.R))
  }

  lemma MessagesCons(L: Pt, R: Pt, r: Fe, y: Rounds, c: Pt)
    requires |y.rs| == |y.arg.L| == |y.arg.R|
    ensures Plus(WeightedMessages(Rounds(Argument([L] + y.arg.L, [R] + y.arg.R, y.arg.aHat), [r] + y.rs, y.log)), c)
      == Plus(WeightedMessages(y), Plus(Plus(Smul(Mul(r, r), L), Smul(Mul(Inv(r), Inv(r)), R)), c))
  {
    hide Mul, Inv, Plus, Smul, Msm, Squares, Invs;
    var (m, n) := (Mul(r, r), Mul(Inv(r), Inv(r)));
    var (ms, ns) := (Squares(y.rs), Squares(Invs(y.rs)));
    SquaresCons(r, y.rs);
    MsmCons(m, ms, L, y.arg.L);
    MsmCons(n, ns, R, y.arg.R);
    FoldMessagePoints(Smul(m, L), Msm(ms, y.arg.L), Smul(n, R), Msm(ns, y.arg.R), c);
  }

  lemma SquaresCons(r: Fe, rs: seq<Fe>)
    ensures Squares([r] + rs) == [Mul(r, r)] + Squares(rs)
    ensures Squares(Invs([r] + rs)) == [Mul(Inv(r), Inv(r))] + Squares(Invs(rs))
  {
    hide Mul, Inv;
  }

  lemma RoundsFoldBase(a: Vec, b: Vec, g: seq<Pt>, u: Pt)
    requires |a| == |b| == |g| == 1
    ensures Plus(Smul(a[0], Msm(TensorVector([]), g)), Smul(Mul(a[0], Dot(b, TensorVector([]))), u))
      == Plus(Plus(Msm(Squares([]), []), Msm(Squares(Invs([])), [])), Claim(a, b, g, u))
  {
    hide Mul, Add, Plus, Smul, Claim;
    assert TensorVector([]) == [1];
    SmulSmall(g[0]);
    PlusO(g[0]);
    MulOne(b[0]);
    AddZero(b[0]);
    PlusO(O);
    assert Claim(a, b, g, u) == Plus(Smul(a[0], g[0]), Smul(Mul(a[0], b[0]), u)) by {
      PlusO(Smul(a[0], g[0]));
      AddZero(Mul(a[0], b[0]));
      ClaimOfOne(a, b, g, u);
    }
    PlusO(Claim(a, b, g, u));
    assert Msm([1], g) == g[0];
    assert Dot(b, [1]) == b[0];
  }

  lemma ClaimOfOne(a: Vec, b: Vec, g: seq<Pt>, u: Pt)
    requires |a| == |b| == |g| == 1
    ensures Claim(a, b, g, u) == Plus(Plus(Smul(a[0], g[0]), O), Smul(Add(Mul(a[0], b[0]), 0), u))
  {
    assert Msm(a, g) == Plus(Smul(a[0], g[0]), O);
    assert Dot(a, b) == Add(Mul(a[0], b[0]), 0);
  }

  lemma FoldMessagePoints(X: Pt, x: Pt, Y: Pt, y: Pt, c: Pt)
    ensures Plus(Plus(Plus(X, x), Plus(Y, y)), c) == Plus(Plus(x, y), Plus(Plus(X, Y), c))
  {
    hide *;
    PlusSwap(X, x, Y, y);
    PlusComm(Plus(X, Y), Plus(x, y));
    PlusAssoc(Plus(x, y), Plus(X, Y), c);
  }

  // --------------------------------------------------------------- completeness

  /** The verifier squeezes exactly the challenges the prover met, none of them 0. */
  lemma {:induction false} SameChallenges(k: nat, st: State, u: Key, oracle: Oracle<Msg>, log: Log<Msg>)
    requires Sized(st, Pow2(k), u) && ProveRounds(k, st, u, oracle, log).Ok?
    ensures var x := ProveRounds(k, st, u, oracle, log).value;
      Challenges(x.arg.L, x.arg.R, oracle, log) == x.rs && NoZeros(x.rs)
    decreases k
  {
    hide NextState, LeftMsg, RightMsg;
    if k > 0 {
      var h := Pow2(k - 1);
      var log1 := RoundLog(st, h, u, log);
      var next := NextState(st, h, u, oracle(log1));
      SameChallenges(k - 1, next, u, oracle, log1 + [Squeezed]);
      var y := ProveRounds(k - 1, next, u, oracle, log1 + [Squeezed]).value;
      var (L, R) := (LeftMsg(st, h, u), RightMsg(st, h, u));
      assert ([L] + y.arg.L)[1..] == y.arg.L && ([R] + y.arg.R)[1..] == y.arg.R;
    }
  }

  /** The prover fails only on a zero challenge. */
  lemma {:induction false} NoPanic(k: nat, st: State, u: Key, oracle: Oracle<Msg>, log: Log<Msg>)
    requires Sized(st, Pow2(k), u) && forall l :: oracle(l) != 0
    ensures ProveRounds(k, st, u, oracle, log).Ok?
    decreases k
  {
    hide NextState, LeftMsg, RightMsg;
    if k > 0 {
      var h := Pow2(k - 1);
      var log1 := RoundLog(st, h, u, log);
      NoPanic(k - 1, NextState(st, h, u, oracle(log1)), u, oracle, log1 + [Squeezed]);
    }
  }

  /** The left side of the verifier's equation, from the concatenated keys. */
  lemma PHatIs(x: Rounds, p: Pt)
    requires |x.rs| == |x.arg.L| == |x.arg.R|
    ensures Commit(Combine(Combine(AsKey(x.arg.L), AsKey(x.arg.R)), AsKey([p])),
                   Squares(x.rs) + Squares(Invs(x.rs)) + [1], 0)
      == Plus(WeightedMessages(x), p)
  {
    hide Plus, Smul, Msm, Squares, Invs, Mul;
    var (ms, ns) := (Squares(x.rs), Squares(Invs(x.rs)));
    var g := x.arg.L + x.arg.R + [p];
    assert g[..|ms + ns + [1]|] == g;
    MsmConcat(ms + ns, [1], x.arg.L + x.arg.R, [p]);
    MsmConcat(ms, ns, x.arg.L, x.arg.R);
    MsmOne(1, p);
    SmulSmall(p);
    SmulSmall(O);
    PlusO(Plus(WeightedMessages(x), p));
  }

  lemma MsmOne(m: int, p: Pt)
    ensures Msm([m], [p]) == Smul(m, p)
  {
    PlusO(Smul(m, p));
  }

  /** ... and the right side. */
  lemma RightSideIs(ckHat: Pt, u: Key, x: Fe, y: Fe)
    requires |u.ck| == 1
    ensures Commit(Combine(AsKey([ckHat]), u), [x, y], 0) == Plus(Smul(x, ckHat), Smul(y, u.ck[0]))
  {
    hide Plus, Smul, Msm;
    assert ([ckHat] + u.ck)[..2] == [ckHat] + [u.ck[0]];
    assert [x, y] == [x] + [y];
    MsmConcat([x], [y], [ckHat], [u.ck[0]]);
    MsmOne(x, ckHat);
    MsmOne(y, u.ck[0]);
    SmulSmall(O);
    PlusO(Plus(Smul(x, ckHat), Smul(y, u.ck[0])));
  }

  lemma FactorOut(x: Fe, a: Pt, y: Fe, w: Pt)
    ensures Plus(Smul(x, a), Smul(Mul(x, y), w)) == Smul(x, Plus(a, Smul(y, w)))
  {
    hide *;
    SmulFMul(x, y, w);
    SmulPlus(x, a, Smul(y, w));
  }

  lemma CommitPlain(key: Key, v: Vec)
    requires |v| <= |key.ck|
    ensures Commit(key, v, 0) == Msm(v, key.ck[..|v|])
  {
    SmulSmall(key.h);
    PlusO(Msm(v, key.ck[..|v|]));
  }

  lemma CancelLeft(a: Pt, b: Pt, c: Pt)
    ensures Plus(a, b) == Plus(a, c) <==> b == c
  {
    hide *;
    if Plus(a, b) == Plus(a, c) { Cancel(a, b, c); }
  }

  /** For an honest run, with the commitment as given, the verifier accepts exactly
      when commitment plus c times the extra generator is the claim about a and b. */
  lemma HonestRun(k: nat, key: Key, u: Key, U: Instance, a: Vec, oracle: Oracle<Msg>, log: Log<Msg>)
    requires |U.b| == Pow2(k) <= |key.ck| && |a| == |U.b| && |u.ck| == 1
    requires ProveRounds(k, State(a, U.b, Prefix(key, |U.b|)), u, oracle, log).Ok?
    ensures var x := ProveRounds(k, State(a, U.b, Prefix(key, |U.b|)), u, oracle, log).value;
      VerifyWith(x.rs, key, u, U, x.arg).Ok?
      <==> Plus(U.commA, Smul(U.c, u.ck[0])) == Claim(a, U.b, key.ck[..|U.b|], u.ck[0])
  {
    hide Mul, Add, Plus, Smul, Msm, Dot, TensorVector, Squares, Invs, Commit, ProveRounds, Claim, WeightedMessages;
    var st := State(a, U.b, Prefix(key, |U.b|));
    var x := ProveRounds(k, st, u, oracle, log).value;
    RoundsFold(k, st, u, oracle, log);
    var t := TensorVector(x.rs);
    assert st.key.ck == key.ck[..|U.b|];
    assert WeightedMessages(x) == WeightedMessages(Rounds(x.arg, x.rs, [])) by { WeightsOnly(x, []); }
    FactorOut(x.arg.aHat, Msm(t, st.key.ck), Dot(U.b, t), u.ck[0]);
    CancelLeft(WeightedMessages(x), Plus(U.commA, Smul(U.c, u.ck[0])), Claim(a, U.b, st.key.ck, u.ck[0]));
  }

  lemma WeightsOnly(x: Rounds, log: Log<Msg>)
    requires |x.rs| == |x.arg.L| == |x.arg.R|
    ensures WeightedMessages(x) == WeightedMessages(Rounds(x.arg, x.rs, log))
  {
    hide Plus, Msm, Squares, Invs;
  }

  /** Completeness: with a true commitment to a and c = <a, b>, for every length
      2^k and every oracle, the verifier accepts what the prover outputs. */
  lemma Completeness(k: nat, key: Key, uKey: Key, U: Instance, a: Vec, oracle: Oracle<Msg>, log: Log<Msg>)
    requires k < 32 && |U.b| == Pow2(k) <= |key.ck| && |a| == |U.b| && |uKey.ck| == 1
    requires U.commA == Commit(key, a, 0) && U.c == Dot(a, U.b)
    requires ProveSpec(k, key, uKey, U, a, oracle, log).Ok?
    ensures VerifySpec(key, uKey, |U.b|, U, ProveSpec(k, key, uKey, U, a, oracle, log).value.arg, oracle, log) == Ok(())
  {
    hide Mul, Add, Plus, Smul, Msm, Dot, Commit, ProveRounds, VerifyWith, Inverses, PScale;
    var log1 := log + [Said(DomSep)] + [Said(AbsorbU(U.commA, U.c))];
    var u := Scale(uKey, oracle(log1));
    var st := State(a, U.b, Prefix(key, |U.b|));
    var x := ProveRounds(k, st, u, oracle, log1 + [Squeezed]).value;
    SameChallenges(k, st, u, oracle, log1 + [Squeezed]);
    InversesMeaning(x.rs, []);
    HonestRun(k, key, u, U, a, oracle, log1 + [Squeezed]);
    CommitPlain(key, a);
    VerifyWithCases(x.rs, key, u, U, x.arg);
  }

  lemma VerifyWithCases(rs: seq<Fe>, key: Key, u: Key, U: Instance, arg: Argument)
    requires |U.b| == Pow2(|rs|) <= |key.ck| && |u.ck| == 1 && |arg.L| == |arg.R| == |rs|
    ensures VerifyWith(rs, key, u, U, arg).Ok? ==> VerifyWith(rs, key, u, U, arg) == Ok(())
  {
  }

  /** Whatever value c is claimed, the honest prover's output is accepted exactly when
      the scaled extra generator does not tell c from <a, b>. */
  lemma HonestRunAcceptsExactly(k: nat, key: Key, uKey: Key, U: Instance, a: Vec, oracle: Oracle<Msg>, log: Log<Msg>)
    requires k < 32 && |U.b| == Pow2(k) <= |key.ck| && |a| == |U.b| && |uKey.ck| == 1
    requires U.commA == Commit(key, a, 0)
    requires ProveSpec(k, key, uKey, U, a, oracle, log).Ok?
    ensures var u := Scale(uKey, oracle(log + [Said(DomSep)] + [Said(AbsorbU(U.commA, U.c))])).ck[0];
      VerifySpec(key, uKey, |U.b|, U, ProveSpec(k, key, uKey, U, a, oracle, log).value.arg, oracle, log).Ok?
      <==> Smul(U.c, u) == Smul(Dot(a, U.b), u)
  {
    hide Mul, Add, Plus, Smul, Msm, Dot, Commit, ProveRounds, VerifyWith, Inverses, PScale;
    var log1 := log + [Said(DomSep)] + [Said(AbsorbU(U.commA, U.c))];
    var u := Scale(uKey, oracle(log1));
    var st := State(a, U.b, Prefix(key, |U.b|));
    var x := ProveRounds(k, st, u, oracle, log1 + [Squeezed]).value;
    SameChallenges(k, st, u, oracle, log1 + [Squeezed]);
    InversesMeaning(x.rs, []);
    HonestRun(k, key, u, U, a, oracle, log1 + [Squeezed]);
    CommitPlain(key, a);
    CancelLeft(U.commA, Smul(U.c, u.ck[0]), Smul(Dot(a, U.b), u.ck[0]));
  }

  // -------------------------------------------------------------------- prover

  function PrependAll(L: seq<Pt>, R: seq<Pt>, rs: seq<Fe>, o: Outcome<Rounds>): Outcome<Rounds> {
    match o
    case Ok(x) => Ok(Rounds(Argument(L + x.arg.L, R + x.arg.R, x.arg.aHat), rs + x.rs, x.log))
    case _ => o
  }

  lemma PrependAllStep(L: seq<Pt>, R: seq<Pt>, rs: seq<Fe>, l: Pt, r: Pt, c: Fe, o: Outcome<Rounds>)
    ensures PrependAll(L, R, rs, Prepend(l, r, c, o)) == PrependAll(L + [l], R + [r], rs + [c], o)
  {
    if o.Ok? {
      assert L + ([l] + o.value.arg.L) == (L + [l]) + o.value.arg.L;
      assert R + ([r] + o.value.arg.R) == (R + [r]) + o.value.arg.R;
      assert rs + ([c] + o.value.rs) == (rs + [c]) + o.value.rs;
    }
  }

  lemma PrependNothing(o: Outcome<Rounds>)
    ensures PrependAll([], [], [], o) == o
  {
    if o.Ok? {
      assert [] + o.value.arg.L == o.value.arg.L && [] + o.value.arg.R == o.value.arg.R && [] + o.value.rs == o.value.rs;
    }
  }

  lemma PrependToLast(L: seq<Pt>, R: seq<Pt>, rs: seq<Fe>, aHat: Fe, log: Log<Msg>)
    ensures PrependAll(L, R, rs, Ok(Rounds(Argument([], [], aHat), [], log))) == Ok(Rounds(Argument(L, R, aHat), rs, log))
  {
    assert L + [] == L && R + [] == R && rs + [] == rs;
  }

  lemma ProveRoundsUnfold(k: nat, st: State, u: Key, oracle: Oracle<Msg>, log: Log<Msg>)
    requires k > 0 && Sized(st, Pow2(k), u)
    ensures var h := Pow2(k - 1);
      && Sized(st, h + h, u)
      && var log1 := RoundLog(st, h, u, log);
      var r := oracle(log1);
      ProveRounds(k, st, u, oracle, log)
      == if r == 0 then Panic
         else Prepend(LeftMsg(st, h, u), RightMsg(st, h, u), r,
                      ProveRounds(k - 1, NextState(st, h, u, r), u, oracle, log1 + [Squeezed]))
  {
    hide NextState, LeftMsg, RightMsg, RoundLog;
  }

  /** A run with vectors whose length is not a power of two comes to an odd length and
      fails the length assertion of the inner product there. */
  method Prove(key: Key, uKey: Key, U: Instance, a: Vec, tr: Transcript<Msg>) returns (o: Outcome<Argument>)
    requires |U.b| <= |key.ck| && |uKey.ck| == 1
    modifies tr
    ensures |U.b| != |a| ==> o == InvalidInputLength && tr.log == old(tr.log) + [Said(DomSep)]
    ensures |U.b| == |a| && !IsPow2(|U.b|) ==> o == Panic
    ensures |U.b| == |a| && IsPow2(|U.b|) ==>
      match ProveSpec(Log2(|U.b|), key, uKey, U, a, tr.oracle, old(tr.log))
      case Ok(x) => o == Ok(x.arg) && tr.log == x.log
      case _ => o == Panic
  {
    hide Log2;
    tr.Absorb(DomSep);
    var ck := Prefix(key, |U.b|);
    if |U.b| != |a| {
      return InvalidInputLength;
    }
    tr.Absorb(AbsorbU(U.commA, U.c));
    var c := tr.Squeeze();
    var u := Scale(uKey, c);
    if |U.b| == 0 {
      return Panic;
    }
    o := ProveLoop(State(a, U.b, ck), u, tr);
  }

  method ProveLoop(start: State, u: Key, tr: Transcript<Msg>) returns (o: Outcome<Argument>)
    requires Sized(start, |start.a|, u) && |start.a| >= 1
    modifies tr
    ensures !IsPow2(|start.a|) ==> o == Panic
    ensures IsPow2(|start.a|) ==>
      match ProveRounds(Log2(|start.a|), start, u, tr.oracle, old(tr.log))
      case Ok(x) => o == Ok(x.arg) && tr.log == x.log
      case _ => o == Panic
  {
    hide NextState, LeftMsg, RightMsg, ProveRounds, Pow2, Log2, RoundLog, Inv;
    ghost var good := IsPow2(|start.a|);
    ghost var want := if good then ProveRounds(Log2(|start.a|), start, u, tr.oracle, tr.log) else Panic;
    var L, R: seq<Pt> := [], [];
    ghost var rs: seq<Fe> := [];
    var st := start;
    var rounds := Log2(|start.b|);
    PrependNothing(want);
    for round := 0 to rounds
      invariant |st.a| >= 1 && Sized(st, |st.a|, u) && Log2(|st.a|) == rounds - round
      invariant IsPow2(|st.a|) <==> good
      invariant good ==> want == PrependAll(L, R, rs, ProveRounds(rounds - round, st, u, tr.oracle, tr.log))
    {
      var h := |st.a| / 2;
      if h + h != |st.a| {
        NotOne(|st.a|);
        return Panic;
      }
      HalfIsPow2(h);
      if good { ProveRoundsUnfold(rounds - round, st, u, tr.oracle, tr.log); }
      ghost var log0 := tr.log;
      var l, r := LeftMsg(st, h, u), RightMsg(st, h, u);
      tr.Absorb(AbsorbL(l));
      tr.Absorb(AbsorbR(r));
      RoundLogIs(st, h, u, log0);
      var c := tr.Squeeze();
      if c == 0 {
        return Panic;
      }
      st := NextState(st, h, u, c);
      if good { PrependAllStep(L, R, rs, l, r, c, ProveRounds(rounds - round - 1, st, u, tr.oracle, tr.log)); }
      L, R, rs := L + [l], R + [r], rs + [c];
    }
    OneLeft(|st.a|);
    LastRound(st, u, tr.oracle, tr.log);
    PrependToLast(L, R, rs, st.a[0], tr.log);
    o := Ok(Argument(L, R, st.a[0]));
  }

  lemma NotOne(n: nat)
    requires n >= 1 && n / 2 + n / 2 != n && Log2(n) > 0
    ensures !IsPow2(n)
  {
    if IsPow2(n) { OddIsNotPow2(n); }
  }

  lemma OneLeft(n: nat)
    requires n >= 1 && Log2(n) == 0
    ensures n == 1 && IsPow2(n) && Pow2(0) == 1
  {
  }

  lemma RoundLogIs(st: State, h: nat, u: Key, log: Log<Msg>)
    requires Sized(st, h + h, u)
    ensures RoundLog(st, h, u, log) == log + [Said(AbsorbL(LeftMsg(st, h, u)))] + [Said(AbsorbR(RightMsg(st, h, u)))]
  {
  }

  lemma LastRound(st: State, u: Key, oracle: Oracle<Msg>, log: Log<Msg>)
    requires Sized(st, Pow2(0), u)
    ensures |st.a| == 1
    ensures ProveRounds(0, st, u, oracle, log) == Ok(Rounds(Argument([], [], st.a[0]), [], log))
  {
  }

  // ------------------------------------------------------------------ verifier

  method Verify(arg: Argument, key: Key, uKey: Key, n: nat, U: Instance, tr: Transcript<Msg>)
    returns (o: Outcome<()>)
    requires |U.b| <= |key.ck| && |uKey.ck| == 1
    modifies tr
    ensures o == VerifySpec(key, uKey, n, U, arg, tr.oracle, old(tr.log))
  {
    hide VerifyWith, Inverses, Challenges, Pow2, TensorVector, Msm, Dot, Plus, Smul, PScale;
    tr.Absorb(DomSep);
    if |U.b| != n || n != Pow2(|arg.L|) || |arg.L| != |arg.R| || |arg.L| >= 32 {
      return InvalidInputLength;
    }
    tr.Absorb(AbsorbU(U.commA, U.c));
    var c := tr.Squeeze();
    var u := Scale(uKey, c);
    var rs := SqueezeAll(arg.L, arg.R, tr);
    var inverses := BatchInvertSerial(rs);
    if inverses.None? {
      return InternalError;
    }
    InversesMeaning(rs, inverses.value);
    InversesAreInvs(rs, inverses.value);
    var s := Tensor(rs, inverses.value);
    o := FinalCheck(rs, inverses.value, s, key, u, U, arg);
  }

  lemma InversesAreInvs(rs: seq<Fe>, w: seq<Fe>)
    requires Inverses(rs) == Some(w)
    ensures w == Invs(rs) && NoZeros(rs)
  {
  }

  lemma ChallengesUnfold(rs: seq<Fe>, L: seq<Pt>, R: seq<Pt>, i: nat, oracle: Oracle<Msg>, log: Log<Msg>)
    requires |L| == |R| && i < |L|
    ensures var log1 := log + [Said(AbsorbL(L[i]))] + [Said(AbsorbR(R[i]))];
      rs + Challenges(L[i..], R[i..], oracle, log)
      == (rs + [oracle(log1)]) + Challenges(L[i + 1..], R[i + 1..], oracle, log1 + [Squeezed])
  {
    assert L[i..][1..] == L[i + 1..] && R[i..][1..] == R[i + 1..];
  }

  lemma NoChallenges(L: seq<Pt>, R: seq<Pt>, oracle: Oracle<Msg>, log: Log<Msg>)
    requires |L| == |R|
    ensures Challenges(L[|L|..], R[|L|..], oracle, log) == []
  {
  }

  method SqueezeAll(L: seq<Pt>, R: seq<Pt>, tr: Transcript<Msg>) returns (rs: seq<Fe>)
    requires |L| == |R|
    modifies tr
    ensures rs == Challenges(L, R, tr.oracle, old(tr.log))
  {
    hide Challenges;
    rs := [];
    ghost var want := Challenges(L, R, tr.oracle, tr.log);
    assert L[0..] == L && R[0..] == R;
    for i := 0 to |L|
      invariant want == rs + Challenges(L[i..], R[i..], tr.oracle, tr.log)
    {
      ChallengesUnfold(rs, L, R, i, tr.oracle, tr.log);
      tr.Absorb(AbsorbL(L[i]));
      tr.Absorb(AbsorbR(R[i]));
      var c := tr.Squeeze();
      rs := rs + [c];
    }
    NoChallenges(L, R, tr.oracle, tr.log);
  }

  method Zeroed(n: nat) returns (s: array<Fe>)
    ensures fresh(s) && s.Length == n
  {
    s := new Fe[n](i => 0);
  }

  /** The tensor vector, filled entry by entry from the position of the high bit. */
  method Tensor(rs: seq<Fe>, inverses: seq<Fe>) returns (out: Vec)
    requires inverses == Invs(rs)
    ensures out == TensorVector(rs)
  {
    assert Prod(inverses[..0]) == 1;
    hide Mul, Prod, Invs;
    var v: Fe := 1;
    for i := 0 to |inverses|
      invariant v == Prod(inverses[..i])
    {
      ProdStep(inverses, i);
      v := Mul(v, inverses[i]);
    }
    assert inverses[..|inverses|] == inverses;
    var s := FillTensor(rs, v);
    out := s[..];
    assert out == TensorVector(rs);
  }

  method FillTensor(rs: seq<Fe>, first: Fe) returns (s: array<Fe>)
    requires first == ProdInv(rs)
    ensures fresh(s) && s.Length == Pow2(|rs|)
    ensures forall i :: 0 <= i < Pow2(|rs|) ==> s[i] == TensorEntry(rs, i)
  {
    hide *;
    var n := Pow2(|rs|);
    var squares := Squares(rs);
    FirstEntry(rs);
    s := Zeroed(n);
    s[0] := first;
    for i := 1 to n
      invariant forall j :: 0 <= j < i ==> s[j] == TensorEntry(rs, j)
    {
      var pos := Log2(i);
      TensorEntryUnfold(rs, i);
      s[i] := Mul(s[i - Pow2(pos)], squares[|rs| - 1 - pos]);
    }
  }

  lemma FirstEntry(rs: seq<Fe>)
    ensures TensorEntry(rs, 0) == ProdInv(rs)
  {
  }

  lemma TensorEntryUnfold(rs: seq<Fe>, i: nat)
    requires 1 <= i < Pow2(|rs|)
    ensures Log2(i) < |rs|
    ensures TensorEntry(rs, i)
      == Mul(TensorEntry(rs, i - Pow2(Log2(i))), Squares(rs)[|rs| - 1 - Log2(i)])
  {
    hide Mul;
    Log2Bound(|rs|, i);
  }

  method FinalCheck(rs: seq<Fe>, inverses: seq<Fe>, s: Vec, key: Key, u: Key, U: Instance, arg: Argument)
    returns (o: Outcome<()>)
    requires |U.b| == Pow2(|rs|) <= |key.ck| && |u.ck| == 1 && |arg.L| == |arg.R| == |rs|
    requires inverses == Invs(rs) && s == TensorVector(rs)
    ensures o == VerifyWith(rs, key, u, U, arg)
  {
    hide Plus, Smul, Mul, Msm, Dot, Commit, TensorVector, Squares, Invs, WeightedMessages;
    var ckHat := Commit(Prefix(key, |U.b|), s, 0);
    var bHat := Dot(U.b, s);
    var p := Plus(U.commA, Commit(u, [U.c], 0));
    var folded := Combine(Combine(AsKey(arg.L), AsKey(arg.R)), AsKey([p]));
    var pHat := Commit(folded, Squares(rs) + Squares(inverses) + [1], 0);
    CommitPlain(Prefix(key, |U.b|), s);
    assert key.ck[..|U.b|][..|s|] == key.ck[..|U.b|];
    CommitPlain(u, [U.c]);
    assert u.ck[..1] == [u.ck[0]];
    MsmOne(U.c, u.ck[0]);
    PHatIs(Rounds(arg, rs, []), p);
    RightSideIs(ckHat, u, arg.aHat, Mul(arg.aHat, bHat));
    FactorOut(arg.aHat, ckHat, bHat, u.ck[0]);
    if pHat == Commit(Combine(AsKey([ckHat]), u), [arg.aHat, Mul(arg.aHat, bHat)], 0) {
      o := Ok(());
    } else {
      o := InvalidPCS;
    }
  }
}
