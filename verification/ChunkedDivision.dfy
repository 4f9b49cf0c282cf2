/** Division by X - u in place and in chunks: each chunk runs its own Horner
    recurrence, the chunk heads are joined from the top chunk down, and each chunk
    is then corrected by the head of the next.  The result is the one-pass
    recurrence for every chunk size. */
module ChunkedDivision {
  import opened PrimeField
  import opened FieldLaws
  import opened Vectors
  import opened Polynomials
  import opened PowersOfTwo

  /** Consecutive chunks of size c cover the n positions; only the last may be short. */
  ghost predicate Chunks(b: seq<nat>, n: nat, c: nat) {
    && |b| >= 2 && b[0] == 0 && b[|b| - 1] == n && c >= 1
    && (forall k, m :: 0 <= k < m < |b| ==> b[k] < b[m])
    && (forall k :: 0 <= k < |b| - 2 ==> b[k + 1] == b[k] + c)
    && b[|b| - 1] <= b[|b| - 2] + c
  }

  method Boundaries(n: nat, c: nat) returns (b: seq<nat>)
    requires n > 0 && c >= 1
    ensures Chunks(b, n, c)
  {
    b := [0];
    while b[|b| - 1] + c < n
      invariant |b| >= 1 && b[0] == 0 && b[|b| - 1] < n
      invariant forall k, m :: 0 <= k < m < |b| ==> b[k] < b[m]
      invariant forall k :: 0 <= k < |b| - 1 ==> b[k + 1] == b[k] + c
      decreases n - b[|b| - 1]
    {
      b := b + [b[|b| - 1] + c];
    }
    b := b + [n];
  }

  /** Position k's chunk starts inside the vector. */
  lemma HeadInside(b: seq<nat>, n: nat, c: nat, k: nat)
    requires Chunks(b, n, c) && k < |b| - 1
    ensures b[k] < b[k + 1] <= n && b[k + 1] <= b[k] + c
    ensures k < |b| - 2 ==> b[k + 1] == b[k] + c && b[k + 1] < n
  {
    if k == |b| - 2 { assert b[k + 1] == n; } else { assert b[k + 1] < b[|b| - 1]; }
  }

  /** The heads of the chunks from k on hold the recurrence to the end. */
  ghost predicate Heads(r: Vec, f: Vec, u: Fe, b: seq<nat>, k: nat) {
    forall m :: k <= m < |b| - 1 ==> b[m] < |r| == |f| && r[b[m]] == Eval(f[b[m]..], u)
  }

  ghost predicate OwnHead(r: Vec, f: Vec, u: Fe, b: seq<nat>, m: nat) {
    m + 1 < |b| && b[m] <= b[m + 1] <= |f| && b[m] < |r| && r[b[m]] == Eval(f[b[m]..b[m + 1]], u)
  }

  /** The heads of the chunks below k hold the recurrence to their own end. */
  ghost predicate OwnHeads(r: Vec, f: Vec, u: Fe, b: seq<nat>, k: nat) {
    forall m :: 0 <= m < k ==> OwnHead(r, f, u, b, m)
  }

  ghost predicate ChunkInner(r: Vec, f: Vec, u: Fe, b: seq<nat>, m: nat) {
    m + 1 < |b| && |f| == |r| && b[m + 1] <= |f|
      && forall i :: b[m] < i < b[m + 1] ==> r[i] == Eval(f[i..b[m + 1]], u)
  }

  /** Past the heads, the chunks from k to before l hold the recurrence to their own end. */
  ghost predicate Inner(r: Vec, f: Vec, u: Fe, b: seq<nat>, k: nat, l: nat) {
    forall m :: k <= m < l ==> ChunkInner(r, f, u, b, m)
  }

  /** A chunk only depends on the positions inside it. */
  lemma ChunkKept(before: Vec, after: Vec, f: Vec, u: Fe, b: seq<nat>, m: nat)
    requires |before| == |after| && m + 1 < |b|
    requires forall i :: b[m] < i < b[m + 1] && i < |after| ==> after[i] == before[i]
    ensures ChunkInner(before, f, u, b, m) ==> ChunkInner(after, f, u, b, m)
    ensures b[m] < |before| && before[b[m]] == after[b[m]] && OwnHead(before, f, u, b, m) ==> OwnHead(after, f, u, b, m)
  {
    hide Eval;
  }

  /** Every position up to e holds the recurrence to the end. */
  ghost predicate Done(r: Vec, f: Vec, u: Fe, e: nat) {
    forall i :: 0 <= i <= e && i < |f| == |r| ==> r[i] == Eval(f[i..], u)
  }

  lemma EvalRange(f: Vec, u: Fe, i: nat, e: nat)
    requires i < e <= |f|
    ensures Eval(f[i..e], u) == Add(f[i], Mul(u, Eval(f[i + 1..e], u)))
  {
    assert f[i..e][1..] == f[i + 1..e];
  }

  /** The Horner recurrence inside the chunk lo..hi. */
  method ChunkHorner(result: array<Fe>, f: Vec, u: Fe, lo: nat, hi: nat)
    requires lo < hi <= |f| == result.Length && result[hi - 1] == f[hi - 1]
    modifies result
    ensures forall i :: lo <= i < hi ==> result[i] == Eval(f[i..hi], u)
    ensures forall i :: 0 <= i < |f| && !(lo <= i < hi) ==> result[i] == old(result[i])
  {
    hide Add, Mul, Eval;
    assert f[hi - 1..hi] == [f[hi - 1]];
    EvalOne(f[hi - 1], u);
    var i := hi - 1;
    while i > lo
      invariant lo <= i < hi
      invariant forall j :: i <= j < hi ==> result[j] == Eval(f[j..hi], u)
      invariant forall j :: 0 <= j < |f| && !(i <= j < hi) ==> result[j] == old(result[j])
    {
      i := i - 1;
      EvalRange(f, u, i, hi);
      result[i] := Add(f[i], Mul(u, result[i + 1]));
    }
  }

  /** A range followed by the rest. */
  lemma JoinRange(f: Vec, u: Fe, i: nat, e: nat)
    requires i <= e <= |f|
    ensures Eval(f[i..], u) == Add(Eval(f[i..e], u), Mul(Pow(u, e - i), Eval(f[e..], u)))
  {
    assert f[i..] == f[i..e] + f[e..];
    EvalConcat(f[i..e], f[e..], u);
  }

  /** The heads of the chunks, joined from the last chunk down. */
  method JoinHeads(result: array<Fe>, f: Vec, u: Fe, uToC: Fe, b: seq<nat>, c: nat)
    requires |f| == result.Length && Chunks(b, |f|, c) && uToC == Pow(u, c)
    requires OwnHeads(result[..], f, u, b, |b| - 1) && Inner(result[..], f, u, b, 0, |b| - 1)
    modifies result
    ensures Heads(result[..], f, u, b, 0) && Inner(result[..], f, u, b, 0, |b| - 1)
  {
    hide Add, Mul, Eval, Pow, Heads, OwnHeads, Inner, Chunks;
    LastHead(result[..], f, u, b, c);
    var k := |b| - 2;
    var prevPartial := result[b[k]];
    while k > 0
      invariant 0 <= k <= |b| - 2 && b[k] < |f|
      invariant prevPartial == Eval(f[b[k]..], u)
      invariant Heads(result[..], f, u, b, k) && OwnHeads(result[..], f, u, b, k) && Inner(result[..], f, u, b, 0, |b| - 1)
    {
      k := k - 1;
      HeadInside(b, |f|, c, k);
      ghost var before := result[..];
      prevPartial := Add(result[b[k]], Mul(uToC, prevPartial));
      result[b[k]] := prevPartial;
      assert result[..] == before[b[k] := prevPartial];
      JoinStep(before, f, u, b, c, k);
    }
  }

  lemma LastHead(r: Vec, f: Vec, u: Fe, b: seq<nat>, c: nat)
    requires |f| == |r| && Chunks(b, |f|, c) && OwnHeads(r, f, u, b, |b| - 1)
    ensures |b| >= 2 && b[|b| - 2] < |f| && r[b[|b| - 2]] == Eval(f[b[|b| - 2]..], u)
    ensures Heads(r, f, u, b, |b| - 2) && OwnHeads(r, f, u, b, |b| - 2)
  {
    hide Eval;
    var k := |b| - 2;
    HeadInside(b, |f|, c, k);
    assert b[k + 1] == |f|;
    assert f[b[k]..|f|] == f[b[k]..];
    assert OwnHead(r, f, u, b, k);
  }

  lemma JoinStep(r: Vec, f: Vec, u: Fe, b: seq<nat>, c: nat, k: nat)
    requires |f| == |r| && Chunks(b, |f|, c) && k < |b| - 2 && b[k] < b[k + 1] < |f|
    requires Heads(r, f, u, b, k + 1) && OwnHeads(r, f, u, b, k + 1) && Inner(r, f, u, b, 0, |b| - 1)
    ensures var e := Add(r[b[k]], Mul(Pow(u, c), Eval(f[b[k + 1]..], u)));
      && e == Eval(f[b[k]..], u) && Heads(r[b[k] := e], f, u, b, k) && OwnHeads(r[b[k] := e], f, u, b, k)
      && Inner(r[b[k] := e], f, u, b, 0, |b| - 1)
  {
    hide Eval, Add, Mul, Pow, ChunkInner, OwnHead;
    var e := Eval(f[b[k]..], u);
    JoinOne(r, f, u, b, c, k);
    var r' := r[b[k] := e];
    forall m | 0 <= m < |b| - 1
      ensures ChunkInner(r', f, u, b, m) && (m < k ==> OwnHead(r', f, u, b, m))
    {
      if m < k { assert b[m + 1] <= b[k]; } else if m > k { assert b[k] < b[m]; }
      assert ChunkInner(r, f, u, b, m);
      ChunkKept(r, r', f, u, b, m);
    }
  }

  lemma JoinOne(r: Vec, f: Vec, u: Fe, b: seq<nat>, c: nat, k: nat)
    requires |f| == |r| && Chunks(b, |f|, c) && k < |b| - 2 && b[k] < b[k + 1] < |f|
    requires OwnHeads(r, f, u, b, k + 1)
    ensures Add(r[b[k]], Mul(Pow(u, c), Eval(f[b[k + 1]..], u))) == Eval(f[b[k]..], u)
  {
    hide Eval, Add, Mul, Pow;
    JoinRange(f, u, b[k], b[k + 1]);
    assert OwnHead(r, f, u, b, k);
  }

  /** Corrects the positions lo+1 .. lo+c-1 of one chunk by the head at lo+c. */
  method CorrectChunk(result: array<Fe>, f: Vec, u: Fe, lo: nat, c: nat)
    requires |f| == result.Length && c >= 1 && lo + c < |f|
    requires result[lo + c] == Eval(f[lo + c..], u)
    requires forall i :: lo < i < lo + c ==> result[i] == Eval(f[i..lo + c], u)
    modifies result
    ensures forall i :: lo < i <= lo + c ==> result[i] == Eval(f[i..], u)
    ensures forall i :: 0 <= i < |f| && !(lo < i < lo + c) ==> result[i] == old(result[i])
  {
    hide Add, Mul, Eval, Pow;
    ghost var head := result[lo + c];
    var prevPartial := result[lo + c];
    var e := lo + c;
    PowZero(u, head);
    while e > lo + 1
      invariant lo + 1 <= e <= lo + c
      invariant prevPartial == Mul(Pow(u, lo + c - e), head)
      invariant forall i :: e <= i <= lo + c ==> result[i] == Eval(f[i..], u)
      invariant forall i :: 0 <= i < |f| && !(e <= i < lo + c) ==> result[i] == old(result[i])
    {
      e := e - 1;
      PowTimes(u, lo + c - e - 1, head);
      prevPartial := Mul(prevPartial, u);
      JoinRange(f, u, e, lo + c);
      result[e] := Add(result[e], prevPartial);
    }
  }

  lemma PowZero(u: Fe, h: Fe)
    ensures Mul(Pow(u, 0), h) == h
  {
    MulOne(h);
  }

  lemma PowTimes(u: Fe, k: nat, h: Fe)
    ensures Mul(Mul(Pow(u, k), h), u) == Mul(Pow(u, k + 1), h)
  {
    hide Mul;
    MulComm(Mul(Pow(u, k), h), u);
    MulAssoc(u, Pow(u, k), h);
  }

  method Copy(f: Vec) returns (a: array<Fe>)
    ensures fresh(a) && a[..] == f
  {
    a := new Fe[|f|](i requires 0 <= i < |f| => f[i]);
  }

  /** u^(2^k) by k squarings. */
  method SquareTimes(u: Fe, k: nat) returns (p: Fe)
    ensures p == Pow(u, Pow2(k))
  {
    hide Mul, Pow;
    p := u;
    PowSnoc(u, 0);
    for i := 0 to k
      invariant p == Pow(u, Pow2(i))
    {
      PowAdd(u, Pow2(i), Pow2(i));
      p := Mul(p, p);
    }
  }

  method DivByMonomial(f: Vec, u: Fe, targetChunks: nat) returns (h: Vec)
    requires |f| > 0 && targetChunks >= 1
    ensures h == Quotient(f, u)
  {
    hide Add, Mul, Eval, Pow, Pow2, Log2, Chunks, Heads, OwnHeads, Inner;
    var targetChunkSize := |f| / targetChunks;
    var log2ChunkSize := Log2(if targetChunkSize >= 1 then targetChunkSize else 1);
    var c := Pow2(log2ChunkSize);
    var uToC := SquareTimes(u, log2ChunkSize);
    var result := Copy(f);
    var b := Boundaries(|f|, c);
    HornerInChunks(result, f, u, b, c);
    JoinHeads(result, f, u, uToC, b, c);
    CorrectChunks(result, f, u, b, c);
    h := result[1..];
  }

  method HornerInChunks(result: array<Fe>, f: Vec, u: Fe, b: seq<nat>, c: nat)
    requires result[..] == f && Chunks(b, |f|, c)
    modifies result
    ensures OwnHeads(result[..], f, u, b, |b| - 1) && Inner(result[..], f, u, b, 0, |b| - 1)
  {
    hide Eval, OwnHeads, Inner, Chunks;
    AtLeastOne(b, |f|, c);
    NothingDone(f, u, b);
    for m := 0 to |b| - 1
      invariant 0 <= m < |b| && b[m] <= |f|
      invariant OwnHeads(result[..], f, u, b, m) && Inner(result[..], f, u, b, 0, m)
      invariant forall i :: b[m] <= i < |f| ==> result[i] == f[i]
    {
      ghost var before := result[..];
      HeadInside(b, |f|, c, m);
      ChunkHorner(result, f, u, b[m], b[m + 1]);
      HornerStep(before, result[..], f, u, b, c, m);
    }
  }

  lemma AtLeastOne(b: seq<nat>, n: nat, c: nat)
    requires Chunks(b, n, c)
    ensures |b| >= 2 && b[0] == 0
  {
  }

  lemma NothingDone(f: Vec, u: Fe, b: seq<nat>)
    ensures OwnHeads(f, f, u, b, 0) && Inner(f, f, u, b, 0, 0)
  {
  }

  lemma HornerStep(before: Vec, after: Vec, f: Vec, u: Fe, b: seq<nat>, c: nat, m: nat)
    requires |before| == |after| == |f| && Chunks(b, |f|, c) && m < |b| - 1 && b[m] < b[m + 1] <= |f|
    requires OwnHeads(before, f, u, b, m) && Inner(before, f, u, b, 0, m)
    requires forall i :: b[m] <= i < b[m + 1] ==> after[i] == Eval(f[i..b[m + 1]], u)
    requires forall i :: 0 <= i < |f| && !(b[m] <= i < b[m + 1]) ==> after[i] == before[i]
    ensures OwnHeads(after, f, u, b, m + 1) && Inner(after, f, u, b, 0, m + 1)
  {
    hide Eval, OwnHead, ChunkInner;
    forall k | 0 <= k < m + 1
      ensures OwnHead(after, f, u, b, k) && ChunkInner(after, f, u, b, k)
    {
      if k < m {
        assert b[k] < b[k + 1] <= b[m];
        assert OwnHead(before, f, u, b, k) && ChunkInner(before, f, u, b, k);
        ChunkKept(before, after, f, u, b, k);
      } else {
        NewChunk(after, f, u, b, m);
      }
    }
  }

  lemma NewChunk(r: Vec, f: Vec, u: Fe, b: seq<nat>, m: nat)
    requires |r| == |f| && m < |b| - 1 && b[m] < b[m + 1] <= |f|
    requires forall i :: b[m] <= i < b[m + 1] ==> r[i] == Eval(f[i..b[m + 1]], u)
    ensures OwnHead(r, f, u, b, m) && ChunkInner(r, f, u, b, m)
  {
    hide Eval;
  }

  /** The exact chunks of the positions after the first. */
  method CorrectChunks(result: array<Fe>, f: Vec, u: Fe, b: seq<nat>, c: nat)
    requires |f| == result.Length && Chunks(b, |f|, c)
    requires Heads(result[..], f, u, b, 0) && Inner(result[..], f, u, b, 0, |b| - 1)
    modifies result
    ensures forall i :: 0 <= i < |f| ==> result[i] == Eval(f[i..], u)
  {
    hide Eval, Heads, Inner, Chunks, Done;
    AtLeastOne(b, |f|, c);
    FirstDone(result[..], f, u, b, c);
    var pos := 1;
    ghost var k := 0;
    while pos + c <= |f|
      invariant 0 <= k < |b| - 1 && pos == b[k] + 1 && c >= 1
      invariant Done(result[..], f, u, b[k]) && Heads(result[..], f, u, b, k) && Inner(result[..], f, u, b, k, |b| - 1)
      decreases |f| - pos
    {
      ghost var before := result[..];
      HeadInside(b, |f|, c, k);
      NotLast(b, |f|, c, k);
      NextHead(before, f, u, b, c, k);
      CorrectChunk(result, f, u, pos - 1, c);
      CorrectStep(before, result[..], f, u, b, c, k);
      pos := pos + c;
      k := k + 1;
    }
    AllDone(result[..], f, u, b, c, k);
  }

  lemma FirstDone(r: Vec, f: Vec, u: Fe, b: seq<nat>, c: nat)
    requires |f| == |r| && Chunks(b, |f|, c) && Heads(r, f, u, b, 0)
    ensures Done(r, f, u, b[0]) && c >= 1
  {
    hide Eval;
    assert r[b[0]] == Eval(f[b[0]..], u);
  }

  lemma NotLast(b: seq<nat>, n: nat, c: nat, k: nat)
    requires Chunks(b, n, c) && k < |b| - 1
    ensures b[k] + 1 + c <= n <==> k < |b| - 2
  {
    HeadInside(b, n, c, k);
    if k == |b| - 2 { assert b[k + 1] == n; }
  }

  lemma NextHead(r: Vec, f: Vec, u: Fe, b: seq<nat>, c: nat, k: nat)
    requires |f| == |r| && Chunks(b, |f|, c) && k < |b| - 2 && b[k + 1] == b[k] + c < |f|
    requires Heads(r, f, u, b, k) && Inner(r, f, u, b, k, |b| - 1)
    ensures r[b[k] + c] == Eval(f[b[k] + c..], u)
    ensures forall i :: b[k] < i < b[k] + c ==> r[i] == Eval(f[i..b[k] + c], u)
  {
    hide Eval;
    assert ChunkInner(r, f, u, b, k);
    assert r[b[k + 1]] == Eval(f[b[k + 1]..], u);
  }

  lemma CorrectStep(before: Vec, after: Vec, f: Vec, u: Fe, b: seq<nat>, c: nat, k: nat)
    requires |before| == |after| == |f| && Chunks(b, |f|, c) && k < |b| - 2 && b[k + 1] == b[k] + c < |f|
    requires Done(before, f, u, b[k]) && Heads(before, f, u, b, k) && Inner(before, f, u, b, k, |b| - 1)
    requires forall i :: b[k] < i <= b[k] + c ==> after[i] == Eval(f[i..], u)
    requires forall i :: 0 <= i < |f| && !(b[k] < i < b[k] + c) ==> after[i] == before[i]
    ensures Done(after, f, u, b[k + 1]) && Heads(after, f, u, b, k + 1) && Inner(after, f, u, b, k + 1, |b| - 1)
  {
    hide Eval;
    hide ChunkInner;
    forall m | k + 1 <= m < |b| - 1
      ensures ChunkInner(after, f, u, b, m)
    {
      assert b[k + 1] <= b[m];
      assert ChunkInner(before, f, u, b, m);
      ChunkKept(before, after, f, u, b, m);
    }
  }

  lemma AllDone(r: Vec, f: Vec, u: Fe, b: seq<nat>, c: nat, k: nat)
    requires |f| == |r| && Chunks(b, |f|, c) && k < |b| - 1 && b[k] + 1 + c > |f|
    requires Done(r, f, u, b[k]) && Inner(r, f, u, b, k, |b| - 1)
    ensures forall i :: 0 <= i < |f| ==> r[i] == Eval(f[i..], u)
  {
    hide Eval;
    NotLast(b, |f|, c, k);
    assert b[k + 1] == |f|;
    assert ChunkInner(r, f, u, b, k);
    forall i | b[k] < i < |f| ensures r[i] == Eval(f[i..], u) {
      assert f[i..b[k + 1]] == f[i..];
    }
  }
}
