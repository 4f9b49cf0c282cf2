/** Batch inversion with one field inversion: the serial form and the two-level
    chunked form.  Both are proved against `Inverses`. */
module BatchInvert {
  import opened PrimeField
  import opened FieldLaws
  import opened Wrappers

  /** The specification: every entry inverted, or nothing if some entry is 0. */
  function Inverses(v: seq<Fe>): (r: Option<seq<Fe>>) {
    if exists i :: 0 <= i < |v| && v[i] == 0 then None
    else Some(seq(|v|, i requires 0 <= i < |v| => Inv(v[i])))
  }

  /** `Inverses` returns an error exactly when some entry is zero, and otherwise
      the one vector whose entries multiply with those of v to 1. */
  lemma InversesMeaning(v: seq<Fe>, w: seq<Fe>)
    ensures Inverses(v).None? <==> exists i :: 0 <= i < |v| && v[i] == 0
    ensures Inverses(v) == Some(w) <==> |w| == |v| && forall i :: 0 <= i < |v| ==> Mul(v[i], w[i]) == 1
  {
    hide Mul, Inv;
    if Inverses(v) == Some(w) {
      forall i | 0 <= i < |v| ensures Mul(v[i], w[i]) == 1 { MulInv(v[i]); }
    }
    if |w| == |v| && forall i :: 0 <= i < |v| ==> Mul(v[i], w[i]) == 1 {
      forall i | 0 <= i < |v| ensures v[i] != 0 && w[i] == Inv(v[i]) { InvUnique(v[i], w[i]); }
      InversesAre(v, w);
    }
  }

  lemma InversesAre(v: seq<Fe>, w: seq<Fe>)
    requires |w| == |v|
    requires forall i :: 0 <= i < |v| ==> v[i] != 0 && w[i] == Inv(v[i])
    ensures Inverses(v) == Some(w)
  {
    assert w == Inverses(v).value;
  }

  /** Product of the entries, left to right. */
  function Prod(v: seq<Fe>): Fe {
    if |v| == 0 then 1 else Mul(Prod(v[..|v| - 1]), v[|v| - 1])
  }

  lemma {:induction false} ProdStep(v: seq<Fe>, i: nat)
    requires i < |v|
    ensures Prod(v[..i + 1]) == Mul(Prod(v[..i]), v[i])
  {
    assert v[..i + 1][..i] == v[..i];
  }

  lemma {:induction false} ProdIsZero(v: seq<Fe>)
    ensures Prod(v) == 0 <==> exists i :: 0 <= i < |v| && v[i] == 0
  {
    if |v| > 0 {
      var w := v[..|v| - 1];
      ProdIsZero(w);
      NoZeroDivisors(Prod(w), v[|v| - 1]);
      if Prod(w) == 0 {
        var i :| 0 <= i < |w| && w[i] == 0;
        assert v[i] == 0;
      }
      if i :| 0 <= i < |v| && v[i] == 0 && i < |w| {
        assert w[i] == 0;
      }
    }
  }

  /** One step of the way back: from the inverse of the prefix ending at i to the
      inverse of entry i and the inverse of the shorter prefix. */
  lemma StepBack(v: seq<Fe>, i: nat, acc: Fe)
    requires i < |v| && v[i] != 0 && Prod(v[..i]) != 0
    requires acc == Inv(Prod(v[..i + 1]))
    ensures Mul(acc, Prod(v[..i])) == Inv(v[i])
    ensures Mul(acc, v[i]) == Inv(Prod(v[..i]))
  {
    hide *;
    var p, x := Prod(v[..i]), v[i];
    ProdStep(v, i);
    InvMul(p, x);
    MulInv(p);
    MulInv(x);
    MulComm(Inv(p), Inv(x));
    MulAssoc(Inv(x), Inv(p), p);
    MulAssoc(Inv(p), Inv(x), x);
    MulOne(Inv(x));
    MulOne(Inv(p));
  }

  lemma PrefixNonzero(v: seq<Fe>, i: nat)
    requires i <= |v| && forall j :: 0 <= j < |v| ==> v[j] != 0
    ensures Prod(v[..i]) != 0
  {
    ProdIsZero(v[..i]);
  }

  // ---------------------------------------------------------------- serial form

  ghost predicate RunningProducts(prod: seq<Fe>, w: seq<Fe>) {
    |prod| == |w| && forall j :: 0 <= j < |w| ==> prod[j] == Prod(w[..j])
  }

  ghost predicate NoZeros(w: seq<Fe>) {
    forall j :: 0 <= j < |w| ==> w[j] != 0
  }

  /** The running products before each entry, and the total. */
  method ComputeProd(beta: seq<Fe>) returns (prod: seq<Fe>, acc: Fe)
    ensures |prod| == |beta| && forall j :: 0 <= j < |beta| ==> prod[j] == Prod(beta[..j])
    ensures acc == Prod(beta)
  {
    var out := new Fe[|beta|](i => 0);
    acc := 1;
    for i := 0 to |beta|
      invariant acc == Prod(beta[..i])
      invariant forall j :: 0 <= j < i ==> out[j] == Prod(beta[..j])
    {
      ProdStep(beta, i);
      out[i] := acc;
      acc := Mul(acc, beta[i]);
    }
    assert beta[..|beta|] == beta;
    prod := out[..];
  }

  method BatchInvertSerial(v: seq<Fe>) returns (r: Option<seq<Fe>>)
    ensures r == Inverses(v)
  {
    hide Mul, Inv, Prod, Inverses;
    var products, acc := ComputeProd(v);
    ProdIsZero(v);
    if acc == 0 {
      InversesMeaning(v, []);
      return None;
    }
    acc := Inv(acc);
    assert v[..|v| - 0] == v;
    var inv := new Fe[|v|](i => 0);
    for i := 0 to |v|
      invariant acc == Inv(Prod(v[..|v| - i]))
      invariant forall j :: |v| - i <= j < |v| ==> inv[j] == Inv(v[j])
    {
      var k := |v| - 1 - i;
      PrefixNonzero(v, k);
      StepBack(v, k, acc);
      MulComm(products[k], acc);
      var tmp := Mul(acc, v[k]);
      inv[k] := Mul(products[k], acc);
      acc := tmp;
    }
    InversesAre(v, inv[..]);
    r := Some(inv[..]);
  }

  // ------------------------------------------------------------- two-level form

  const MAX_SIZE_FOR_SERIAL := 4096
  const MIN_CHUNK_SIZE := 128

  function Min(a: int, b: int): int { if a <= b then a else b }

  /** Inverts v[lo..hi] in place, given the running products of that slice and
      the inverse of its total. */
  method ComputeInv(v: array<Fe>, lo: nat, hi: nat, prod: seq<Fe>, initInv: Fe)
    requires lo <= hi <= v.Length
    requires NoZeros(v[lo..hi]) && RunningProducts(prod, v[lo..hi])
    requires initInv == Inv(Prod(v[lo..hi]))
    modifies v
    ensures forall j :: lo <= j < hi ==> v[j] == Inv(old(v[j]))
    ensures forall j :: 0 <= j < v.Length && !(lo <= j < hi) ==> v[j] == old(v[j])
  {
    hide Mul, Inv, Prod;
    ghost var w := v[lo..hi];
    var acc := initInv;
    var i := hi - lo;
    assert w[..i] == w;
    while i > 0
      invariant 0 <= i <= hi - lo
      invariant acc == Inv(Prod(w[..i]))
      invariant forall j :: 0 <= j < i ==> v[lo + j] == w[j]
      invariant forall j :: i <= j < hi - lo ==> v[lo + j] == Inv(w[j])
      invariant forall j :: 0 <= j < v.Length && !(lo <= j < hi) ==> v[j] == old(v[j])
    {
      i := i - 1;
      PrefixNonzero(w, i);
      StepBack(w, i, acc);
      var next := Mul(acc, v[lo + i]);
      v[lo + i] := Mul(acc, prod[i]);
      acc := next;
    }
    assert forall j :: lo <= j < hi ==> v[j] == Inv(w[j - lo]) by {
      forall j | lo <= j < hi ensures v[j] == Inv(w[j - lo]) { assert v[lo + (j - lo)] == Inv(w[j - lo]); }
    }
  }

  method ToVec(v: seq<Fe>) returns (w: array<Fe>)
    ensures fresh(w) && w[..] == v
  {
    w := new Fe[|v|](j requires 0 <= j < |v| => v[j]);
  }

  /** Where chunk c starts when a sequence is cut into chunks of the given size. */
  function Start(size: nat, c: nat): nat { c * size }

  function NumChunks(n: nat, size: nat): nat
    requires size > 0
  {
    if n == 0 then 0 else (n - 1) / size + 1
  }

  function Chunk(v: seq<Fe>, size: nat, c: nat): seq<Fe>
    requires size > 0 && Start(size, c) <= |v|
  {
    v[Start(size, c)..Min(Start(size, c + 1), |v|)]
  }

  lemma StartNext(size: nat, c: nat)
    ensures Start(size, c + 1) == Start(size, c) + size
  {
  }

  lemma ChunkStart(n: nat, size: nat, c: nat)
    requires size > 0 && c < NumChunks(n, size)
    ensures Start(size, c) < n
  {
    var q := (n - 1) / size;
    assert q * size <= n - 1;
    assert c * size <= q * size;
  }

  lemma ChunkOf(n: nat, size: nat, j: nat) returns (c: nat)
    requires size > 0 && j < n
    ensures c < NumChunks(n, size)
    ensures Start(size, c) <= j < Start(size, c + 1)
  {
    c := j / size;
    var q, m := j / size, j % size;
    assert j == size * q + m;
    var q', m' := (n - 1) / size, (n - 1) % size;
    assert n - 1 == size * q' + m';
    if q > q' {
      MulMono(size, q' + 1, q);
    }
  }

  lemma ChunksCover(n: nat, size: nat)
    requires size > 0
    ensures Start(size, NumChunks(n, size)) >= n
  {
    if n > 0 {
      var c := ChunkOf(n, size, n - 1);
      MulMono(size, c + 1, NumChunks(n, size));
    }
  }

  /** The products of all chunks vanish together exactly when some entry is 0. */
  lemma RootIsZero(v: seq<Fe>, size: nat, beta2: seq<Fe>)
    requires size > 0 && |beta2| == NumChunks(|v|, size)
    requires forall c :: 0 <= c < |beta2| ==> Start(size, c) <= |v| && beta2[c] == Prod(Chunk(v, size, c))
    ensures Prod(beta2) == 0 <==> exists j :: 0 <= j < |v| && v[j] == 0
  {
    hide Prod, NumChunks, Start;
    ProdIsZero(beta2);
    if Prod(beta2) == 0 {
      var c :| 0 <= c < |beta2| && beta2[c] == 0;
      StartNext(size, c);
      var w := Chunk(v, size, c);
      ProdIsZero(w);
      var i :| 0 <= i < |w| && w[i] == 0;
      assert v[Start(size, c) + i] == 0;
    }
    if j :| 0 <= j < |v| && v[j] == 0 {
      var c := ChunkOf(|v|, size, j);
      var w := Chunk(v, size, c);
      assert w[j - Start(size, c)] == 0;
      ProdIsZero(w);
      assert beta2[c] == 0;
    }
  }

  /** The parallel form; `threads` is whatever the thread pool reports. */
  method BatchInvert(v: seq<Fe>, threads: nat) returns (r: Option<seq<Fe>>)
    requires threads >= 1
    ensures r == Inverses(v)
  {
    hide Mul, Inv, Prod, Inverses;
    if |v| < MAX_SIZE_FOR_SERIAL {
      r := BatchInvertSerial(v);
      return;
    }
    var size := Max(MIN_CHUNK_SIZE, |v| / threads);
    r := BatchInvertChunked(v, size);
  }

  /** The two levels, for any chunk size. */
  method BatchInvertChunked(v: seq<Fe>, size: nat) returns (r: Option<seq<Fe>>)
    requires size > 0
    ensures r == Inverses(v)
  {
    hide Mul, Inv, Prod, Inverses, Chunk, NumChunks;
    var chunks := NumChunks(|v|, size);
    var prod1, beta2 := ProductTree(v, size);
    var prod2, root := ComputeProd(beta2);
    RootIsZero(v, size, beta2);
    if root == 0 {
      InversesMeaning(v, []);
      return None;
    }
    ProdIsZero(beta2);
    var b := ToVec(beta2);
    assert b[..][0..chunks] == beta2;
    ComputeInv(b, 0, chunks, prod2, Inv(root));
    var w := InverseTree(v, size, prod1, beta2, b[..]);
    InversesAre(v, w);
    r := Some(w);
  }

  /** Phase 1: the running products and the total of every chunk. */
  method ProductTree(v: seq<Fe>, size: nat) returns (prod1: seq<seq<Fe>>, beta2: seq<Fe>)
    requires size > 0
    ensures |prod1| == |beta2| == NumChunks(|v|, size)
    ensures forall c :: 0 <= c < |beta2| ==> Start(size, c) <= |v| && beta2[c] == Prod(Chunk(v, size, c))
    ensures forall c :: 0 <= c < |beta2| ==> RunningProducts(prod1[c], Chunk(v, size, c))
  {
    hide Mul, Prod, Chunk, NumChunks;
    prod1, beta2 := [], [];
    for c := 0 to NumChunks(|v|, size)
      invariant |prod1| == |beta2| == c
      invariant forall d :: 0 <= d < c ==> Start(size, d) <= |v| && beta2[d] == Prod(Chunk(v, size, d))
      invariant forall d :: 0 <= d < c ==> RunningProducts(prod1[d], Chunk(v, size, d))
    {
      ChunkStart(|v|, size, c);
      var p, acc := ComputeProd(Chunk(v, size, c));
      prod1, beta2 := prod1 + [p], beta2 + [acc];
    }
  }

  lemma ChunkNoZeros(v: seq<Fe>, size: nat, c: nat)
    requires size > 0 && NoZeros(v) && Start(size, c) <= |v|
    ensures NoZeros(Chunk(v, size, c))
  {
    StartNext(size, c);
  }

  /** The entries below k are inverted, the others still as in v. */
  ghost predicate InvertedBelow(w: seq<Fe>, v: seq<Fe>, k: nat) {
    |w| == |v| && forall j :: 0 <= j < |v| ==> w[j] == if j < k then Inv(v[j]) else v[j]
  }

  method InvertChunk(w: array<Fe>, ghost v: seq<Fe>, size: nat, c: nat, prod: seq<Fe>, b: Fe)
    requires size > 0 && NoZeros(v) && Start(size, c) < |v|
    requires RunningProducts(prod, Chunk(v, size, c)) && b == Inv(Prod(Chunk(v, size, c)))
    requires InvertedBelow(w[..], v, Start(size, c))
    modifies w
    ensures InvertedBelow(w[..], v, Start(size, c + 1))
  {
    hide Mul, Inv, Prod, Start, RunningProducts, NoZeros;
    StartNext(size, c);
    ChunkNoZeros(v, size, c);
    var lo, hi := Start(size, c), Min(Start(size, c + 1), w.Length);
    assert w[lo..hi] == Chunk(v, size, c);
    ComputeInv(w, lo, hi, prod, b);
    forall j | 0 <= j < |v|
      ensures w[..][j] == if j < Start(size, c + 1) then Inv(v[j]) else v[j]
    {
      assert j < lo || lo <= j < hi || hi <= j;
    }
  }

  /** Phase 2: every chunk inverted in place from the inverse of its total. */
  method InverseTree(v: seq<Fe>, size: nat, prod1: seq<seq<Fe>>, beta2: seq<Fe>, b: seq<Fe>)
    returns (out: seq<Fe>)
    requires size > 0 && NoZeros(v)
    requires |prod1| == |beta2| == |b| == NumChunks(|v|, size)
    requires forall c :: 0 <= c < |beta2| ==> Start(size, c) <= |v| && beta2[c] == Prod(Chunk(v, size, c))
    requires forall c :: 0 <= c < |beta2| ==> RunningProducts(prod1[c], Chunk(v, size, c))
    requires forall c :: 0 <= c < |b| ==> b[c] == Inv(beta2[c])
    ensures InvertedBelow(out, v, |v|)
  {
    assert Start(size, 0) == 0;
    hide Mul, Inv, Prod, NumChunks, Start, RunningProducts, NoZeros, Chunk;
    var w := ToVec(v);
    var chunks := NumChunks(|v|, size);
    ChunksCover(|v|, size);
    for c := 0 to chunks
      invariant InvertedBelow(w[..], v, Start(size, c))
    {
      ChunkStart(|v|, size, c);
      InvertChunk(w, v, size, c, prod1[c], b[c]);
    }
    out := w[..];
  }
}
