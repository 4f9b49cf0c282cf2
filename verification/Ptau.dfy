/** Powers-of-tau files: the writer that patches section sizes in afterwards, the writer
    of pruned files, and the reader, which inverts both. */
module Ptau {
  import opened Wrappers
  import opened PowersOfTwo
  import opened Bits

  // ------------------------------------------------------------------ byte order

  /** The k low bytes of n, little-endian. */
  function LeBytes(n: nat, k: nat): (b: seq<Byte>)
    ensures |b| == k
  {
    if k == 0 then [] else [n % 256] + LeBytes(n / 256, k - 1)
  }

  lemma {:induction false} LeBytesInverse(n: nat, k: nat)
    requires n < Pow2(8 * k)
    ensures FromBytes(LeBytes(n, k)) == n
  {
    if k > 0 {
      ByteStep(n, k);
      LeBytesInverse(n / 256, k - 1);
      assert LeBytes(n, k)[1..] == LeBytes(n / 256, k - 1);
    }
  }

  lemma ByteStep(n: nat, k: nat)
    requires k > 0 && n < Pow2(8 * k)
    ensures n / 256 < Pow2(8 * (k - 1))
  {
    hide Pow2;
    var p := Pow2(8 * (k - 1));
    Pow2Add(8, 8 * (k - 1));
    assert Pow2(8) == 256 by { EightBits(); }
    assert 8 + 8 * (k - 1) == 8 * k;
  }

  lemma EightBits()
    ensures Pow2(8) == 256
  {
    assert Pow2(2) == 4;
    assert Pow2(4) == 16;
    assert Pow2(6) == 64;
  }

  function U32(b: seq<Byte>): nat {
    FromBytes(b)
  }

  /** A signed 64-bit integer in two's complement. */
  function I64(b: seq<Byte>): int {
    if FromBytes(b) < Pow2(63) then FromBytes(b) else FromBytes(b) - Pow2(64)
  }

  // ---------------------------------------------------------------------- cursors

  /** A byte buffer with a position, as files and in-memory cursors behave. */
  class Cursor {
    var data: seq<Byte>
    var pos: nat

    constructor (data: seq<Byte>)
      ensures this.data == data && pos == 0
    {
      this.data, pos := data, 0;
    }

    /** Overwrites from the position on, growing at the end. */
    method WriteAll(b: seq<Byte>)
      requires pos <= |data|
      modifies this
      ensures data == Overwritten(old(data), old(pos), b) && pos == old(pos) + |b|
    {
      data := data[..pos] + b + (if pos + |b| <= |data| then data[pos + |b|..] else []);
      pos := pos + |b|;
    }

    method SeekStart(p: nat)
      modifies this`pos
      ensures pos == p
    {
      pos := p;
    }

    /** Moves by a signed offset; a position before the start is an error. */
    method SeekCurrent(offset: int) returns (ok: bool)
      modifies this`pos
      ensures ok == (old(pos) + offset >= 0)
      ensures pos == if ok then old(pos) + offset else old(pos)
    {
      ok := pos + offset >= 0;
      if ok { pos := pos + offset; }
    }

    /** Exactly n bytes, or an error at the end of the data. */
    method ReadExact(n: nat) returns (b: Option<seq<Byte>>)
      modifies this`pos
      ensures b == Bytes(data, old(pos), n)
      ensures b.Some? ==> pos == old(pos) + n
    {
      if pos + n > |data| { return None; }
      b := Some(data[pos..pos + n]);
      pos := pos + n;
    }
  }

  function Overwritten(d: seq<Byte>, p: nat, b: seq<Byte>): seq<Byte>
    requires p <= |d|
  {
    d[..p] + b + (if p + |b| <= |d| then d[p + |b|..] else [])
  }

  function Bytes(d: seq<Byte>, p: nat, n: nat): Option<seq<Byte>> {
    if p + n > |d| then None else Some(d[p..p + n])
  }

  // ---------------------------------------------------------------- file contents

  const PTAU_VERSION := 1
  const NUM_SECTIONS_FULL := 11
  const NUM_SECTIONS_PRUNED := 3
  const N8 := 32

  /** The ASCII bytes of the magic string. */
  const MAGIC: seq<Byte> := [112, 116, 97, 117]

  const BN254_MODULUS: nat := 0x30644e72e131a029b85045b68181585d97816a916871ca8d3c208c16d87cfd47

  /** The raw form of one kind of point: fixed size, canonical, checked on reading. */
  datatype Codec<!T> = Codec(size: nat, enc: T -> seq<Byte>, dec: seq<Byte> -> Option<T>, onCurve: T -> bool, torsionFree: T -> bool)

  ghost predicate CodecOk<T(!new)>(c: Codec<T>) {
    forall p {:trigger c.enc(p)} :: |c.enc(p)| == c.size && c.dec(c.enc(p)) == Some(p)
  }

  function Points<T>(c: Codec<T>, ps: seq<T>): seq<Byte> {
    if |ps| == 0 then [] else c.enc(ps[0]) + Points(c, ps[1..])
  }

  datatype Section = Section(id: nat, body: seq<Byte>)

  function SectionBytes(s: Section): seq<Byte> {
    LeBytes(s.id, 4) + LeBytes(|s.body|, 8) + s.body
  }

  function Sections(ss: seq<Section>): seq<Byte> {
    if |ss| == 0 then [] else SectionBytes(ss[0]) + Sections(ss[1..])
  }

  function HeaderBody(modulus: nat, power: nat): (b: seq<Byte>)
    ensures |b| == 4 + N8 + 4
  {
    LeBytes(N8, 4) + LeBytes(modulus, N8) + LeBytes(power, 4)
  }

  function Preamble(numSections: nat): (b: seq<Byte>)
    ensures |b| == 12
  {
    MAGIC + LeBytes(PTAU_VERSION, 4) + LeBytes(numSections, 4)
  }

  /** A file with the given sections. */
  function File(ss: seq<Section>): seq<Byte> {
    Preamble(|ss|) + Sections(ss)
  }

  function EmptySections(id: nat): seq<Section>
    requires id <= NUM_SECTIONS_FULL
    decreases NUM_SECTIONS_FULL - id
  {
    if id == NUM_SECTIONS_FULL then [] else [Section(id, [])] + EmptySections(id + 1)
  }

  /** The sections of the full writer, in the order they stand in the file. */
  function FullSections(modulus: nat, power: nat, g1: seq<Byte>, g2: seq<Byte>): seq<Section> {
    [Section(1, HeaderBody(modulus, power)), Section(0, [])] + EmptySections(4) + [Section(2, g1), Section(3, g2)]
  }

  function PrunedSections(modulus: nat, power: nat, g1: seq<Byte>, g2: seq<Byte>): seq<Section> {
    [Section(1, HeaderBody(modulus, power)), Section(2, g1), Section(3, g2)]
  }

  // ------------------------------------------------------------------- the reader

  datatype Outcome<+T> = Ok(value: T) | InvalidHead | UnsupportedVersion(version: nat) | InvalidNumSections(n: nat)
    | InvalidPrime(found: nat) | InsufficientPowerForG1(power: nat, required: nat)
    | InsufficientPowerForG2(power: nat, required: nat) | PointNotOnCurve | PointNotInSubgroup | IoError | Panic

  datatype MetaData = MetaData(posHeader: nat, posTauG1: nat, posTauG2: nat)

  function Noted(m: MetaData, id: nat, pos: nat): MetaData {
    if id == 1 then m.(posHeader := pos) else if id == 2 then m.(posTauG1 := pos)
    else if id == 3 then m.(posTauG2 := pos) else m
  }

  function ScanSections(d: seq<Byte>, pos: nat, count: nat, m: MetaData): Outcome<MetaData>
    decreases count
  {
    if count == 0 then Ok(m)
    else if pos + 12 > |d| then IoError
    else
      var id := U32(d[pos..pos + 4]);
      var size := I64(d[pos + 4..pos + 12]);
      if pos + 12 + size < 0 then IoError
      else ScanSections(d, pos + 12 + size, count - 1, Noted(m, id, pos + 12))
  }

  function MetaDataOf(d: seq<Byte>): Outcome<MetaData> {
    if |d| < 4 then IoError
    else if d[0..4] != MAGIC then InvalidHead
    else if |d| < 8 then IoError
    else if U32(d[4..8]) != PTAU_VERSION then UnsupportedVersion(U32(d[4..8]))
    else if |d| < 12 then IoError
    else
      var n := U32(d[8..12]);
      if n != NUM_SECTIONS_FULL && n != NUM_SECTIONS_PRUNED then InvalidNumSections(n)
      else
        var o := ScanSections(d, 12, n, MetaData(0, 0, 0));
        if o.Ok? && (o.value.posHeader == 0 || o.value.posTauG1 == 0 || o.value.posTauG2 == 0) then Panic else o
  }

  /** Shifts and products that overflow a 64-bit size panic. */
  function HeaderCheck(d: seq<Byte>, pos: nat, modulus: nat, numG1: nat, numG2: nat): Outcome<()> {
    var n8 := Bytes(d, pos, 4);
    if n8.None? then IoError
    else
      var prime := Bytes(d, pos + 4, U32(n8.value));
      if prime.None? then IoError
      else if FromBytes(prime.value) != modulus then InvalidPrime(FromBytes(prime.value))
      else
        var p := Bytes(d, pos + 4 + U32(n8.value), 4);
        if p.None? then IoError
        else
          var power := U32(p.value);
          if power >= 63 then Panic
          else if numG1 > Pow2(power) * 2 - 1 then InsufficientPowerForG1(power, Pow2(power) * 2 - 1)
          else if numG2 > Pow2(power) then InsufficientPowerForG2(power, Pow2(power))
          else Ok(())
  }

  function PointsAt<T>(c: Codec<T>, d: seq<Byte>, pos: nat, num: nat): Outcome<seq<T>>
    decreases num
  {
    if num == 0 then Ok([])
    else
      var raw := Bytes(d, pos, c.size);
      if raw.None? then IoError
      else
        var p := c.dec(raw.value);
        if p.None? then IoError
        else if !c.onCurve(p.value) then PointNotOnCurve
        else
          var rest := PointsAt(c, d, pos + c.size, num - 1);
          if rest.Ok? then Ok([p.value] + rest.value) else rest
  }

  predicate AllTorsionFree<T>(c: Codec<T>, ps: seq<T>) {
    forall i :: 0 <= i < |ps| ==> c.torsionFree(ps[i])
  }

  function Contents<S, T>(c1: Codec<S>, c2: Codec<T>, d: seq<Byte>, modulus: nat, numG1: nat, numG2: nat): Outcome<(seq<S>, seq<T>)> {
    match MetaDataOf(d)
    case Ok(m) =>
      (match HeaderCheck(d, m.posHeader, modulus, numG1, numG2)
       case Ok(_) =>
         (match PointsAt(c1, d, m.posTauG1, numG1)
          case Ok(g1) =>
            (match PointsAt(c2, d, m.posTauG2, numG2)
             case Ok(g2) => if AllTorsionFree(c2, g2) then Ok((g1, g2)) else PointNotInSubgroup
             case e => Failure(e))
          case e => Failure(e))
       case e => Failure(e))
    case e => Failure(e)
  }

  /** An error passed on. */
  function Failure<S, T>(o: Outcome<S>): Outcome<T> {
    match o
    case Ok(_) => Panic
    case InvalidHead => InvalidHead
    case UnsupportedVersion(v) => UnsupportedVersion(v)
    case InvalidNumSections(n) => InvalidNumSections(n)
    case InvalidPrime(f) => InvalidPrime(f)
    case InsufficientPowerForG1(p, r) => InsufficientPowerForG1(p, r)
    case InsufficientPowerForG2(p, r) => InsufficientPowerForG2(p, r)
    case PointNotOnCurve => PointNotOnCurve
    case PointNotInSubgroup => PointNotInSubgroup
    case IoError => IoError
    case Panic => Panic
  }

  // ------------------------------------------------ what an accepted file guarantees

  /** The stored header: a modulus of the length before it, and a power that is enough. */
  predicate HeaderFits(d: seq<Byte>, pos: nat, modulus: nat, numG1: nat, numG2: nat) {
    && pos + 4 <= |d|
    && var n8 := U32(d[pos..pos + 4]);
    && pos + 4 + n8 + 4 <= |d|
    && FromBytes(d[pos + 4..pos + 4 + n8]) == modulus
    && var power := U32(d[pos + 4 + n8..pos + 4 + n8 + 4]);
       power < 63 && numG1 < 2 * Pow2(power) && numG2 <= Pow2(power)
  }

  lemma HeaderExactly(d: seq<Byte>, pos: nat, modulus: nat, numG1: nat, numG2: nat)
    ensures HeaderCheck(d, pos, modulus, numG1, numG2).Ok? <==> HeaderFits(d, pos, modulus, numG1, numG2)
  {
    hide FromBytes, Pow2;
  }

  lemma BlockInside(i: nat, num: nat, size: nat)
    requires i < num
    ensures i * size + size == (i + 1) * size <= num * size
  {
    OneMoreBlock(i, size);
    BlocksMono(i + 1, num, size);
  }

  lemma OneMoreBlock(i: nat, size: nat)
    ensures (i + 1) * size == i * size + size
  {
  }

  lemma {:induction false} BlocksMono(i: nat, num: nat, size: nat)
    requires i <= num
    ensures i * size <= num * size
    decreases num
  {
    if i < num {
      BlocksMono(i, num - 1, size);
      OneMoreBlock(num - 1, size);
    }
  }

  /** Point i is the valid decoding of the i-th block of the section. */
  predicate PointFits<T(==)>(c: Codec<T>, d: seq<Byte>, pos: nat, i: nat, p: T) {
    pos + i * c.size + c.size <= |d| && c.dec(d[pos + i * c.size..pos + i * c.size + c.size]) == Some(p) && c.onCurve(p)
  }

  lemma {:induction false} PointsExactly<T>(c: Codec<T>, d: seq<Byte>, pos: nat, num: nat, ps: seq<T>)
    ensures PointsAt(c, d, pos, num) == Ok(ps)
      <==> |ps| == num && forall i :: 0 <= i < num ==> PointFits(c, d, pos, i, ps[i])
    decreases num
  {
    if num == 0 {
      assert PointsAt(c, d, pos, num) == Ok([]);
    } else if |ps| == num {
      PointsExactly(c, d, pos + c.size, num - 1, ps[1..]);
      assert ps == [ps[0]] + ps[1..];
      forall i | 0 <= i < num - 1 ensures PointFits(c, d, pos + c.size, i, ps[1..][i]) == PointFits(c, d, pos, i + 1, ps[i + 1]) {
        BlockInside(i, num, c.size);
      }
      FirstPoint(c, d, pos, num, ps);
    } else {
      PointsCount(c, d, pos, num);
    }
  }

  lemma FirstPoint<T>(c: Codec<T>, d: seq<Byte>, pos: nat, num: nat, ps: seq<T>)
    requires num > 0 && |ps| == num
    ensures PointsAt(c, d, pos, num) == Ok(ps)
      <==> PointFits(c, d, pos, 0, ps[0]) && PointsAt(c, d, pos + c.size, num - 1) == Ok(ps[1..])
  {
    assert ps == [ps[0]] + ps[1..];
  }

  lemma {:induction false} PointsCount<T>(c: Codec<T>, d: seq<Byte>, pos: nat, num: nat)
    ensures PointsAt(c, d, pos, num).Ok? ==> |PointsAt(c, d, pos, num).value| == num
    decreases num
  {
    if num > 0 { PointsCount(c, d, pos + c.size, num - 1); }
  }

  /** On any bytes: points are returned exactly when the magic, the version and the number
      of sections are right and all three sections are found, the stored modulus is the
      expected one, the stored power is enough, every point decodes from its own block and
      is on its curve, and every second-group point is in the subgroup. */
  lemma AcceptedExactly<S, T>(c1: Codec<S>, c2: Codec<T>, d: seq<Byte>, modulus: nat, numG1: nat, numG2: nat,
                              g1: seq<S>, g2: seq<T>)
    ensures Contents(c1, c2, d, modulus, numG1, numG2) == Ok((g1, g2))
      <==> && |d| >= 12 && d[..4] == MAGIC && U32(d[4..8]) == 1 && U32(d[8..12]) in {3, 11}
           && var m := ScanSections(d, 12, U32(d[8..12]), MetaData(0, 0, 0));
           && m.Ok? && m.value.posHeader != 0 && m.value.posTauG1 != 0 && m.value.posTauG2 != 0
           && HeaderFits(d, m.value.posHeader, modulus, numG1, numG2)
           && |g1| == numG1 && (forall i :: 0 <= i < numG1 ==> PointFits(c1, d, m.value.posTauG1, i, g1[i]))
           && |g2| == numG2 && (forall i :: 0 <= i < numG2 ==> PointFits(c2, d, m.value.posTauG2, i, g2[i]))
           && forall i :: 0 <= i < numG2 ==> c2.torsionFree(g2[i])
  {
    hide HeaderCheck, HeaderFits, PointsAt, PointFits, ScanSections, FromBytes;
    MetaExactly(d);
    if MetaDataOf(d).Ok? {
      var m := MetaDataOf(d).value;
      HeaderExactly(d, m.posHeader, modulus, numG1, numG2);
      PointsExactly(c1, d, m.posTauG1, numG1, g1);
      PointsExactly(c2, d, m.posTauG2, numG2, g2);
    }
  }

  lemma MetaExactly(d: seq<Byte>)
    ensures MetaDataOf(d).Ok?
      <==> && |d| >= 12 && d[..4] == MAGIC && U32(d[4..8]) == 1 && U32(d[8..12]) in {3, 11}
           && var m := ScanSections(d, 12, U32(d[8..12]), MetaData(0, 0, 0));
           m.Ok? && m.value.posHeader != 0 && m.value.posTauG1 != 0 && m.value.posTauG2 != 0
    ensures MetaDataOf(d).Ok? ==> MetaDataOf(d) == ScanSections(d, 12, U32(d[8..12]), MetaData(0, 0, 0))
  {
    hide ScanSections, FromBytes;
    if |d| >= 4 { assert d[..4] == d[0..4]; }
  }

  method ReadU32(c: Cursor) returns (n: Option<nat>)
    modifies c`pos
    ensures n == (match Bytes(c.data, old(c.pos), 4) case Some(b) => Some(U32(b)) case None => None)
    ensures n.Some? ==> c.pos == old(c.pos) + 4
  {
    var b := c.ReadExact(4);
    n := match b case Some(v) => Some(U32(v)) case None => None;
  }

  method ReadI64(c: Cursor) returns (n: Option<int>)
    modifies c`pos
    ensures n == (match Bytes(c.data, old(c.pos), 8) case Some(b) => Some(I64(b)) case None => None)
    ensures n.Some? ==> c.pos == old(c.pos) + 8
  {
    hide I64;
    var b := c.ReadExact(8);
    n := match b case Some(v) => Some(I64(v)) case None => None;
  }

  method ReadMetaData(c: Cursor) returns (o: Outcome<MetaData>)
    requires c.pos == 0
    modifies c`pos
    ensures o == MetaDataOf(c.data)
  {
    hide I64, FromBytes;
    var head := c.ReadExact(4);
    if head.None? { return IoError; }
    if head.value != MAGIC { return InvalidHead; }
    var version := ReadU32(c);
    if version.None? { return IoError; }
    if version.value != PTAU_VERSION { return UnsupportedVersion(version.value); }
    var num := ReadU32(c);
    if num.None? { return IoError; }
    if num.value != NUM_SECTIONS_FULL && num.value != NUM_SECTIONS_PRUNED { return InvalidNumSections(num.value); }
    var m := MetaData(0, 0, 0);
    for k := 0 to num.value
      invariant ScanSections(c.data, 12, num.value, MetaData(0, 0, 0)) == ScanSections(c.data, c.pos, num.value - k, m)
    {
      var id := ReadU32(c);
      if id.None? { return IoError; }
      var size := ReadI64(c);
      if size.None? { return IoError; }
      m := Noted(m, id.value, c.pos);
      var ok := c.SeekCurrent(size.value);
      if !ok { return IoError; }
    }
    if m.posHeader == 0 || m.posTauG1 == 0 || m.posTauG2 == 0 { return Panic; }
    o := Ok(m);
  }

  method ReadHeader(c: Cursor, modulus: nat, numG1: nat, numG2: nat) returns (o: Outcome<()>)
    modifies c`pos
    ensures o == HeaderCheck(c.data, old(c.pos), modulus, numG1, numG2)
  {
    hide FromBytes, Pow2;
    var n8 := ReadU32(c);
    if n8.None? { return IoError; }
    var buf := c.ReadExact(n8.value);
    if buf.None? { return IoError; }
    if FromBytes(buf.value) != modulus { return InvalidPrime(FromBytes(buf.value)); }
    var power := ReadU32(c);
    if power.None? { return IoError; }
    if power.value >= 63 { return Panic; }
    var maxNumG2 := Pow2(power.value);
    var maxNumG1 := maxNumG2 * 2 - 1;
    if numG1 > maxNumG1 { return InsufficientPowerForG1(power.value, maxNumG1); }
    if numG2 > maxNumG2 { return InsufficientPowerForG2(power.value, maxNumG2); }
    o := Ok(());
  }

  function Prepend<T>(ps: seq<T>, o: Outcome<seq<T>>): Outcome<seq<T>> {
    if o.Ok? then Ok(ps + o.value) else o
  }

  method ReadPoints<T>(codec: Codec<T>, c: Cursor, num: nat) returns (o: Outcome<seq<T>>)
    modifies c`pos
    ensures o == PointsAt(codec, c.data, old(c.pos), num)
  {
    var res: seq<T> := [];
    PrependNone(PointsAt(codec, c.data, c.pos, num));
    ghost var want := PointsAt(codec, c.data, c.pos, num);
    for k := 0 to num
      invariant want == Prepend(res, PointsAt(codec, c.data, c.pos, num - k))
    {
      PrependOne(codec, c.data, c.pos, num - k, res);
      var raw := c.ReadExact(codec.size);
      if raw.None? { return IoError; }
      var p := codec.dec(raw.value);
      if p.None? { return IoError; }
      if !codec.onCurve(p.value) { return PointNotOnCurve; }
      res := res + [p.value];
    }
    assert res + [] == res;
    o := Ok(res);
  }

  lemma PrependNone<T>(o: Outcome<seq<T>>)
    ensures Prepend([], o) == o
  {
    if o.Ok? { assert [] + o.value == o.value; }
  }

  lemma PrependOne<T>(codec: Codec<T>, d: seq<Byte>, pos: nat, num: nat, res: seq<T>)
    requires num > 0
    ensures match Bytes(d, pos, codec.size)
      case None => Prepend(res, PointsAt(codec, d, pos, num)) == IoError
      case Some(b) =>
        match codec.dec(b)
        case None => Prepend(res, PointsAt(codec, d, pos, num)) == IoError
        case Some(p) =>
          Prepend(res, PointsAt(codec, d, pos, num))
          == if !codec.onCurve(p) then PointNotOnCurve else Prepend(res + [p], PointsAt(codec, d, pos + codec.size, num - 1))
  {
    var rest := PointsAt(codec, d, pos + codec.size, num - 1);
    var b := Bytes(d, pos, codec.size);
    if b.Some? && codec.dec(b.value).Some? && rest.Ok? {
      var p := codec.dec(b.value).value;
      assert res + ([p] + rest.value) == (res + [p]) + rest.value;
    }
  }

  method ReadPtau<S, T>(c1: Codec<S>, c2: Codec<T>, c: Cursor, modulus: nat, numG1: nat, numG2: nat)
    returns (o: Outcome<(seq<S>, seq<T>)>)
    requires c.pos == 0
    modifies c`pos
    ensures o == Contents(c1, c2, c.data, modulus, numG1, numG2)
  {
    hide MetaDataOf, HeaderCheck, PointsAt;
    var meta := ReadMetaData(c);
    if !meta.Ok? { return Failure(meta); }
    c.SeekStart(meta.value.posHeader);
    var header := ReadHeader(c, modulus, numG1, numG2);
    if !header.Ok? { return Failure(header); }
    c.SeekStart(meta.value.posTauG1);
    var g1 := ReadPoints(c1, c, numG1);
    if !g1.Ok? { return Failure(g1); }
    c.SeekStart(meta.value.posTauG2);
    var g2 := ReadPoints(c2, c, numG2);
    if !g2.Ok? { return Failure(g2); }
    for k := 0 to |g2.value|
      invariant forall i :: 0 <= i < k ==> c2.torsionFree(g2.value[i])
    {
      if !c2.torsionFree(g2.value[k]) { return PointNotInSubgroup; }
    }
    o := Ok((g1.value, g2.value));
  }

  // -------------------------------------------------- reading what sections encode

  /** d holds the bytes b at position p. */
  ghost predicate Has(d: seq<Byte>, p: nat, b: seq<Byte>) {
    p + |b| <= |d| && d[p..p + |b|] == b
  }

  lemma HasSplit(d: seq<Byte>, p: nat, a: seq<Byte>, b: seq<Byte>)
    requires Has(d, p, a + b)
    ensures Has(d, p, a) && Has(d, p + |a|, b)
  {
    var s := d[p..p + |a + b|];
    assert d[p..p + |a|] == s[..|a|];
    assert d[p + |a|..p + |a| + |b|] == s[|a|..];
  }

  /** The metadata a list of sections gives, starting at position p. */
  function MetaAfter(ss: seq<Section>, p: nat, m: MetaData): MetaData {
    if |ss| == 0 then m
    else MetaAfter(ss[1..], p + 12 + |ss[0].body|, Noted(m, ss[0].id, p + 12))
  }

  ghost predicate Encodable(ss: seq<Section>) {
    forall i :: 0 <= i < |ss| ==> ss[i].id < Pow2(32) && |ss[i].body| < Pow2(63)
  }

  /** Scanning meets exactly the sections that were written. */
  lemma {:induction false} ScanFindsSections(d: seq<Byte>, p: nat, ss: seq<Section>, m: MetaData)
    requires Has(d, p, Sections(ss)) && Encodable(ss)
    ensures ScanSections(d, p, |ss|, m) == Ok(MetaAfter(ss, p, m))
    decreases |ss|
  {
    hide Pow2, FromBytes, I64, LeBytes;
    if |ss| > 0 {
      var s := ss[0];
      HasSplit(d, p, SectionBytes(s), Sections(ss[1..]));
      HasSplit(d, p, LeBytes(s.id, 4) + LeBytes(|s.body|, 8), s.body);
      HasSplit(d, p, LeBytes(s.id, 4), LeBytes(|s.body|, 8));
      LeBytesInverse(s.id, 4);
      SizeInverse(|s.body|);
      ScanFindsSections(d, p + 12 + |s.body|, ss[1..], Noted(m, s.id, p + 12));
    }
  }

  lemma SizeInverse(n: nat)
    requires n < Pow2(63)
    ensures I64(LeBytes(n, 8)) == n
  {
    hide Pow2, FromBytes, LeBytes;
    Pow2Mono(63, 8 * 8);
    LeBytesInverse(n, 8);
  }

  /** Points come back from their raw forms. */
  lemma {:induction false} PointsInverse<T(!new)>(c: Codec<T>, d: seq<Byte>, p: nat, ps: seq<T>, num: nat)
    requires CodecOk(c) && Has(d, p, Points(c, ps)) && num <= |ps|
    requires forall i :: 0 <= i < |ps| ==> c.onCurve(ps[i])
    ensures PointsAt(c, d, p, num) == Ok(ps[..num])
    decreases num
  {
    if num > 0 {
      HasSplit(d, p, c.enc(ps[0]), Points(c, ps[1..]));
      PointsInverse(c, d, p + c.size, ps[1..], num - 1);
      assert ps[..num] == [ps[0]] + ps[1..][..num - 1];
    }
  }

  lemma HeaderInverse(d: seq<Byte>, p: nat, modulus: nat, power: nat, numG1: nat, numG2: nat)
    requires Has(d, p, HeaderBody(modulus, power)) && modulus < Pow2(256) && power < 63
    ensures HeaderCheck(d, p, modulus, numG1, numG2)
         == if numG1 > Pow2(power) * 2 - 1 then InsufficientPowerForG1(power, Pow2(power) * 2 - 1)
            else if numG2 > Pow2(power) then InsufficientPowerForG2(power, Pow2(power)) else Ok(())
  {
    hide Pow2, FromBytes, LeBytes;
    HasSplit(d, p, LeBytes(N8, 4) + LeBytes(modulus, N8), LeBytes(power, 4));
    HasSplit(d, p, LeBytes(N8, 4), LeBytes(modulus, N8));
    assert Pow2(8 * 4) > 63 by { Pow2Mono(6, 32); SixBits(); }
    LeBytesInverse(N8, 4);
    LeBytesInverse(modulus, N8);
    LeBytesInverse(power, 4);
  }

  lemma SixBits()
    ensures Pow2(6) == 64
  {
    assert Pow2(2) == 4;
    assert Pow2(4) == 16;
  }

  /** What the reader makes of a file whose first, last but one and last sections are
      the header and the two point lists. */
  function Expected<S, T>(power: nat, g1: seq<S>, g2: seq<T>, numG1: nat, numG2: nat): Outcome<(seq<S>, seq<T>)>
    requires numG1 <= |g1| && numG2 <= |g2|
  {
    if numG1 > Pow2(power) * 2 - 1 then InsufficientPowerForG1(power, Pow2(power) * 2 - 1)
    else if numG2 > Pow2(power) then InsufficientPowerForG2(power, Pow2(power))
    else Ok((g1[..numG1], g2[..numG2]))
  }

  /** Where the reader finds the header and the points. */
  ghost predicate Located(ss: seq<Section>, header: seq<Byte>, g1: seq<Byte>, g2: seq<Byte>) {
    var m := MetaAfter(ss, 12, MetaData(0, 0, 0));
    m.posHeader != 0 && m.posTauG1 != 0 && m.posTauG2 != 0
    && Has(File(ss), m.posHeader, header) && Has(File(ss), m.posTauG1, g1) && Has(File(ss), m.posTauG2, g2)
  }

  lemma FileIsRead<S(!new), T(!new)>(c1: Codec<S>, c2: Codec<T>, ss: seq<Section>, modulus: nat, power: nat,
                                     g1: seq<S>, g2: seq<T>, numG1: nat, numG2: nat)
    requires CodecOk(c1) && CodecOk(c2) && modulus < Pow2(256) && power < 63 && Encodable(ss)
    requires |ss| == NUM_SECTIONS_FULL || |ss| == NUM_SECTIONS_PRUNED
    requires Located(ss, HeaderBody(modulus, power), Points(c1, g1), Points(c2, g2))
    requires forall i :: 0 <= i < |g1| ==> c1.onCurve(g1[i])
    requires forall i :: 0 <= i < |g2| ==> c2.onCurve(g2[i]) && c2.torsionFree(g2[i])
    requires numG1 <= |g1| && numG2 <= |g2|
    ensures Contents(c1, c2, File(ss), modulus, numG1, numG2) == Expected(power, g1, g2, numG1, numG2)
  {
    hide Pow2, FromBytes, LeBytes, HeaderCheck, PointsAt, MetaAfter, MetaDataOf, HeaderBody;
    var d := File(ss);
    var m := MetaAfter(ss, 12, MetaData(0, 0, 0));
    FileMetaData(ss);
    HeaderInverse(d, m.posHeader, modulus, power, numG1, numG2);
    PointsInverse(c1, d, m.posTauG1, g1, numG1);
    PointsInverse(c2, d, m.posTauG2, g2, numG2);
  }

  lemma FileMetaData(ss: seq<Section>)
    requires Encodable(ss) && (|ss| == NUM_SECTIONS_FULL || |ss| == NUM_SECTIONS_PRUNED)
    ensures var m := MetaAfter(ss, 12, MetaData(0, 0, 0));
      m.posHeader != 0 && m.posTauG1 != 0 && m.posTauG2 != 0 ==> MetaDataOf(File(ss)) == Ok(m)
  {
    hide Pow2, FromBytes, LeBytes, MetaAfter, ScanSections, Sections, File;
    var d := File(ss);
    FilePreamble(ss);
    ScanFindsSections(d, 12, ss, MetaData(0, 0, 0));
    assert Pow2(8 * 4) > 63 by { Pow2Mono(6, 32); SixBits(); }
    LeBytesInverse(PTAU_VERSION, 4);
    LeBytesInverse(|ss|, 4);
  }

  lemma FilePreamble(ss: seq<Section>)
    ensures |File(ss)| == 12 + |Sections(ss)|
    ensures File(ss)[0..4] == MAGIC && File(ss)[4..8] == LeBytes(PTAU_VERSION, 4)
    ensures File(ss)[8..12] == LeBytes(|ss|, 4) && File(ss)[12..12 + |Sections(ss)|] == Sections(ss)
  {
    hide LeBytes, Sections;
  }

  // ----------------------------------------------------------- the two file layouts

  lemma {:induction false} SectionsConcat(a: seq<Section>, b: seq<Section>)
    ensures Sections(a + b) == Sections(a) + Sections(b)
  {
    if |a| == 0 {
      assert a + b == b;
    } else {
      assert (a + b)[1..] == a[1..] + b;
      SectionsConcat(a[1..], b);
    }
  }

  lemma {:induction false} MetaConcat(a: seq<Section>, b: seq<Section>, p: nat, m: MetaData)
    ensures MetaAfter(a + b, p, m) == MetaAfter(b, p + |Sections(a)|, MetaAfter(a, p, m))
  {
    hide LeBytes;
    if |a| == 0 {
      assert a + b == b;
    } else {
      assert (a + b)[1..] == a[1..] + b;
      assert |SectionBytes(a[0])| == 12 + |a[0].body|;
      MetaConcat(a[1..], b, p + 12 + |a[0].body|, Noted(m, a[0].id, p + 12));
    }
  }

  /** Sections with other ids leave the metadata alone. */
  lemma {:induction false} OtherSections(ss: seq<Section>, p: nat, m: MetaData)
    requires forall i :: 0 <= i < |ss| ==> ss[i].id == 0 || ss[i].id > 3
    ensures MetaAfter(ss, p, m) == m
  {
    if |ss| > 0 { OtherSections(ss[1..], p + 12 + |ss[0].body|, m); }
  }

  lemma {:induction false} EmptySectionsFacts(id: nat)
    requires 4 <= id <= NUM_SECTIONS_FULL
    ensures |EmptySections(id)| == NUM_SECTIONS_FULL - id
    ensures forall i :: 0 <= i < |EmptySections(id)| ==>
              3 < EmptySections(id)[i].id < NUM_SECTIONS_FULL && EmptySections(id)[i].body == []
    decreases NUM_SECTIONS_FULL - id
  {
    if id < NUM_SECTIONS_FULL { EmptySectionsFacts(id + 1); }
  }

  /** A section's body stands twelve bytes after the section's start. */
  lemma BodyAt(before: seq<Section>, s: Section, after: seq<Section>)
    ensures Has(File(before + [s] + after), 12 + |Sections(before)| + 12, s.body)
  {
    hide LeBytes, Preamble, Has, Sections;
    var ss := before + [s] + after;
    SectionsConcat(before + [s], after);
    SectionsConcat(before, [s]);
    SectionsOne(s);
    var intro := LeBytes(s.id, 4) + LeBytes(|s.body|, 8);
    var front := Preamble(|ss|) + Sections(before) + intro;
    assert Preamble(|ss|) + ((Sections(before) + (intro + s.body)) + Sections(after)) == front + s.body + Sections(after);
    HasMiddle(front, s.body, Sections(after));
  }

  lemma SectionsOne(s: Section)
    ensures Sections([s]) == SectionBytes(s)
  {
    assert [s][1..] == [] && Sections([s][1..]) == [];
  }

  lemma HasMiddle(a: seq<Byte>, b: seq<Byte>, c: seq<Byte>)
    ensures Has(a + b + c, |a|, b)
  {
    var s := a + b + c;
    assert s[|a|..|a| + |b|] == b;
  }

  lemma OneSection(s: Section, p: nat, m: MetaData)
    ensures MetaAfter([s], p, m) == Noted(m, s.id, p + 12)
  {
    assert [s][1..] == [];
  }

  /** Header first, then sections the reader skips, then the two point sections. */
  lemma LayoutLocated(header: seq<Byte>, skipped: seq<Section>, g1: seq<Byte>, g2: seq<Byte>)
    requires forall i :: 0 <= i < |skipped| ==> skipped[i].id == 0 || skipped[i].id > 3
    ensures Located([Section(1, header)] + skipped + [Section(2, g1)] + [Section(3, g2)], header, g1, g2)
  {
    hide Sections, MetaAfter, Has, File;
    var (a, b, c) := ([Section(1, header)], [Section(2, g1)], [Section(3, g2)]);
    var m0 := MetaData(0, 0, 0);
    OneSection(Section(1, header), 12, m0);
    var m1 := m0.(posHeader := 24);
    MetaConcat(a, skipped, 12, m0);
    OtherSections(skipped, 12 + |Sections(a)|, m1);
    var p2 := 12 + |Sections(a + skipped)|;
    MetaConcat(a + skipped, b, 12, m0);
    OneSection(Section(2, g1), p2, m1);
    var p3 := 12 + |Sections(a + skipped + b)|;
    MetaConcat(a + skipped + b, c, 12, m0);
    OneSection(Section(3, g2), p3, m1.(posTauG1 := p2 + 12));
    BodyAt([], Section(1, header), skipped + b + c);
    assert Sections([]) == [] by { NoSections(); }
    assert [] + a + (skipped + b + c) == a + skipped + b + c;
    BodyAt(a + skipped, Section(2, g1), c);
    BodyAt(a + skipped + b, Section(3, g2), []);
    assert a + skipped + b + c + [] == a + skipped + b + c;
  }

  lemma NoSections()
    ensures Sections([]) == []
  {
  }

  /** Between the header and the points, a full file has eight sections to skip. */
  lemma FullShape(modulus: nat, power: nat, b1: seq<Byte>, b2: seq<Byte>) returns (skipped: seq<Section>)
    ensures FullSections(modulus, power, b1, b2)
         == [Section(1, HeaderBody(modulus, power))] + skipped + [Section(2, b1)] + [Section(3, b2)]
    ensures |FullSections(modulus, power, b1, b2)| == NUM_SECTIONS_FULL
    ensures forall i :: 0 <= i < |skipped| ==> skipped[i].id == 0 || skipped[i].id > 3
    ensures forall i :: 0 <= i < |skipped| ==> skipped[i].id < NUM_SECTIONS_FULL && skipped[i].body == []
  {
    hide HeaderBody, EmptySections;
    skipped := [Section(0, [])] + EmptySections(4);
    EmptySectionsFacts(4);
  }

  /** For every power below 63, all valid point lists and requested counts within them,
      the reader returns the requested prefixes from a full file, or says which list the
      power is too small for. */
  lemma ReadInvertsFull<S(!new), T(!new)>(c1: Codec<S>, c2: Codec<T>, modulus: nat, power: nat,
                                          g1: seq<S>, g2: seq<T>, numG1: nat, numG2: nat)
    requires CodecOk(c1) && CodecOk(c2) && modulus < Pow2(256) && power < 63
    requires |Points(c1, g1)| < Pow2(63) && |Points(c2, g2)| < Pow2(63)
    requires forall i :: 0 <= i < |g1| ==> c1.onCurve(g1[i])
    requires forall i :: 0 <= i < |g2| ==> c2.onCurve(g2[i]) && c2.torsionFree(g2[i])
    requires numG1 <= |g1| && numG2 <= |g2|
    ensures Contents(c1, c2, File(FullSections(modulus, power, Points(c1, g1), Points(c2, g2))), modulus, numG1, numG2)
         == Expected(power, g1, g2, numG1, numG2)
  {
    hide *;
    var (b1, b2) := (Points(c1, g1), Points(c2, g2));
    var h := HeaderBody(modulus, power);
    var ss := FullSections(modulus, power, b1, b2);
    var skipped := FullShape(modulus, power, b1, b2);
    LayoutLocated(h, skipped, b1, b2);
    FullEncodable(ss, h, skipped, b1, b2);
    FileIsRead(c1, c2, ss, modulus, power, g1, g2, numG1, numG2);
  }

  lemma FullEncodable(ss: seq<Section>, h: seq<Byte>, skipped: seq<Section>, b1: seq<Byte>, b2: seq<Byte>)
    requires ss == [Section(1, h)] + skipped + [Section(2, b1)] + [Section(3, b2)]
    requires |h| == 4 + N8 + 4 && |b1| < Pow2(63) && |b2| < Pow2(63)
    requires forall i :: 0 <= i < |skipped| ==> skipped[i].id < NUM_SECTIONS_FULL && skipped[i].body == []
    ensures Encodable(ss)
  {
    hide Pow2;
    SmallNumbers();
  }

  /** The same for a pruned file. */
  lemma ReadInvertsPruned<S(!new), T(!new)>(c1: Codec<S>, c2: Codec<T>, modulus: nat, power: nat,
                                            g1: seq<S>, g2: seq<T>, numG1: nat, numG2: nat)
    requires CodecOk(c1) && CodecOk(c2) && modulus < Pow2(256) && power < 63
    requires |Points(c1, g1)| < Pow2(63) && |Points(c2, g2)| < Pow2(63)
    requires forall i :: 0 <= i < |g1| ==> c1.onCurve(g1[i])
    requires forall i :: 0 <= i < |g2| ==> c2.onCurve(g2[i]) && c2.torsionFree(g2[i])
    requires numG1 <= |g1| && numG2 <= |g2|
    ensures Contents(c1, c2, File(PrunedSections(modulus, power, Points(c1, g1), Points(c2, g2))), modulus, numG1, numG2)
         == Expected(power, g1, g2, numG1, numG2)
  {
    hide Pow2, HeaderBody, Points, Contents, Located, File;
    var (b1, b2) := (Points(c1, g1), Points(c2, g2));
    var h := HeaderBody(modulus, power);
    var ss := PrunedSections(modulus, power, b1, b2);
    assert ss == [Section(1, h)] + [] + [Section(2, b1)] + [Section(3, b2)];
    LayoutLocated(h, [], b1, b2);
    FullEncodable(ss, h, [], b1, b2);
    FileIsRead(c1, c2, ss, modulus, power, g1, g2, numG1, numG2);
  }

  lemma SmallNumbers()
    ensures Pow2(32) > 63 && Pow2(63) > 63
  {
    Pow2Mono(6, 32);
    Pow2Mono(6, 63);
    SixBits();
  }

  // ------------------------------------------------------------------ the writers

  lemma AtTheEnd(d: seq<Byte>, b: seq<Byte>)
    ensures Overwritten(d, |d|, b) == d + b
  {
    if |b| == 0 { assert d[|d|..] == []; }
    assert d[..|d|] == d;
  }

  /** Writing at the end appends. */
  method Append(c: Cursor, b: seq<Byte>)
    requires c.pos == |c.data|
    modifies c
    ensures c.data == old(c.data) + b && c.pos == |c.data|
  {
    AtTheEnd(c.data, b);
    c.WriteAll(b);
  }

  method WritePoints<T(!new)>(codec: Codec<T>, c: Cursor, ps: seq<T>)
    requires c.pos == |c.data|
    modifies c
    ensures c.data == old(c.data) + Points(codec, ps) && c.pos == |c.data|
  {
    assert ps[0..] == ps;
    for k := 0 to |ps|
      invariant c.pos == |c.data|
      invariant c.data + Points(codec, ps[k..]) == old(c.data) + Points(codec, ps)
    {
      assert ps[k..][1..] == ps[k + 1..];
      ghost var before := c.data;
      Append(c, codec.enc(ps[k]));
      assert before + (codec.enc(ps[k]) + Points(codec, ps[k + 1..])) == c.data + Points(codec, ps[k + 1..]);
    }
    assert c.data + [] == c.data;
  }

  /** The modulus must fill its 32 bytes exactly, or the copy panics (not `ok`). */
  method WriteHeader(c: Cursor, modulus: nat, power: nat, numSections: nat) returns (ok: bool)
    requires c.data == [] && c.pos == 0
    modifies c
    ensures ok <==> Pow2(248) <= modulus < Pow2(256)
    ensures ok ==>
      c.data == Preamble(numSections) + SectionBytes(Section(1, HeaderBody(modulus, power))) && c.pos == |c.data|
  {
    hide LeBytes, Pow2;
    Append(c, MAGIC);
    Append(c, LeBytes(PTAU_VERSION, 4));
    Append(c, LeBytes(numSections, 4));
    assert c.data == Preamble(numSections);
    Append(c, LeBytes(1, 4));
    Append(c, LeBytes(4 + N8 + 4, 8));
    Append(c, LeBytes(N8, 4));
    if modulus < Pow2(248) || modulus >= Pow2(256) {
      return false;
    }
    ok := true;
    Append(c, LeBytes(modulus, N8));
    Append(c, LeBytes(power, 4));
    assert c.data == Preamble(numSections) + ((LeBytes(1, 4) + LeBytes(4 + N8 + 4, 8)) + HeaderBody(modulus, power));
  }

  lemma PatchedBytes(a: seq<Byte>, old8: seq<Byte>, new8: seq<Byte>, body: seq<Byte>)
    requires |old8| == |new8| == 8
    ensures Overwritten(a + old8 + body, |a|, new8) == a + new8 + body
  {
    var d := a + old8 + body;
    assert d[..|a|] == a && d[|a| + 8..] == body;
  }

  /** A section whose size is written as zero first and patched in afterwards.  The
      position is left after the size. */
  method PatchedSection<T(!new)>(codec: Codec<T>, c: Cursor, id: nat, ps: seq<T>) returns (size: nat)
    requires c.pos == |c.data|
    modifies c
    ensures c.data == old(c.data) + SectionBytes(Section(id, Points(codec, ps)))
    ensures size == |Points(codec, ps)| && c.pos == old(|c.data|) + 12
  {
    hide LeBytes, Points;
    Append(c, LeBytes(id, 4));
    var pos := c.pos;
    ghost var a := c.data;
    Append(c, LeBytes(0, 8));
    var start := c.pos;
    WritePoints(codec, c, ps);
    size := c.pos - start;
    c.SeekStart(pos);
    PatchedBytes(a, LeBytes(0, 8), LeBytes(size, 8), Points(codec, ps));
    c.WriteAll(LeBytes(size, 8));
    assert a + LeBytes(size, 8) + Points(codec, ps) == old(c.data) + SectionBytes(Section(id, Points(codec, ps)));
  }

  lemma EmptySectionsStep(id: nat)
    requires id < NUM_SECTIONS_FULL
    ensures Sections(EmptySections(id)) == (LeBytes(id, 4) + LeBytes(0, 8)) + Sections(EmptySections(id + 1))
    ensures Sections(EmptySections(NUM_SECTIONS_FULL)) == []
  {
    hide LeBytes;
    var s := Section(id, []);
    assert EmptySections(id)[1..] == EmptySections(id + 1);
    assert SectionBytes(s) == LeBytes(id, 4) + LeBytes(0, 8);
  }

  method WriteEmptySections(c: Cursor)
    requires c.pos == |c.data|
    modifies c
    ensures c.data == old(c.data) + Sections(EmptySections(4)) && c.pos == |c.data|
  {
    hide LeBytes, Sections, EmptySections;
    ghost var start := c.data;
    for id := 4 to NUM_SECTIONS_FULL
      invariant c.pos == |c.data|
      invariant c.data + Sections(EmptySections(id)) == start + Sections(EmptySections(4))
    {
      ghost var (before, rest) := (c.data, Sections(EmptySections(id + 1)));
      EmptySectionsStep(id);
      Append(c, LeBytes(id, 4));
      Append(c, LeBytes(0, 8));
      assert before + ((LeBytes(id, 4) + LeBytes(0, 8)) + rest) == c.data + rest;
    }
    EmptySectionsStep(4);
    assert c.data + [] == c.data;
  }

  method WritePtau<S(!new), T(!new)>(c1: Codec<S>, c2: Codec<T>, c: Cursor, modulus: nat, g1: seq<S>, g2: seq<T>, power: nat)
    returns (ok: bool)
    requires c.data == [] && c.pos == 0
    modifies c
    ensures ok <==> Pow2(248) <= modulus < Pow2(256)
    ensures ok ==> c.data == File(FullSections(modulus, power, Points(c1, g1), Points(c2, g2)))
  {
    hide LeBytes, Points, Preamble, HeaderBody, EmptySections, SectionBytes, Pow2;
    ok := WriteHeader(c, modulus, power, NUM_SECTIONS_FULL);
    if !ok {
      return;
    }
    EmptySectionBytes();
    Append(c, LeBytes(0, 4));
    Append(c, LeBytes(0, 8));
    WriteEmptySections(c);
    ghost var front := c.data;
    var size := PatchedSection(c1, c, 2, g1);
    PatchedLength(2, Points(c1, g1));
    var sought := c.SeekCurrent(size);
    size := PatchedSection(c2, c, 3, g2);
    FullBytes(modulus, power, Points(c1, g1), Points(c2, g2));
  }

  lemma EmptySectionBytes()
    ensures SectionBytes(Section(0, [])) == LeBytes(0, 4) + LeBytes(0, 8)
  {
  }

  lemma PatchedLength(id: nat, body: seq<Byte>)
    ensures |SectionBytes(Section(id, body))| == 12 + |body|
  {
  }

  lemma FullBytes(modulus: nat, power: nat, b1: seq<Byte>, b2: seq<Byte>)
    ensures File(FullSections(modulus, power, b1, b2))
         == Preamble(NUM_SECTIONS_FULL) + SectionBytes(Section(1, HeaderBody(modulus, power)))
            + LeBytes(0, 4) + LeBytes(0, 8) + Sections(EmptySections(4))
            + SectionBytes(Section(2, b1)) + SectionBytes(Section(3, b2))
  {
    hide LeBytes, Preamble, HeaderBody, EmptySections, SectionBytes, Sections;
    EmptySectionBytes();
    EmptySectionsFacts(4);
    var (h, z, e, s2, s3) := (Section(1, HeaderBody(modulus, power)), Section(0, []), EmptySections(4), Section(2, b1), Section(3, b2));
    assert FullSections(modulus, power, b1, b2) == [h] + [z] + e + [s2] + [s3];
    SectionsConcat([h] + [z] + e + [s2], [s3]);
    SectionsConcat([h] + [z] + e, [s2]);
    SectionsConcat([h] + [z], e);
    SectionsConcat([h], [z]);
    SectionsOne(h);
    SectionsOne(z);
    SectionsOne(s2);
    SectionsOne(s3);
  }

  /** The second writer: three sections, sizes known from the point counts. */
  method WritePrunedPtau<S(!new), T(!new)>(c1: Codec<S>, c2: Codec<T>, c: Cursor, g1: seq<S>, g2: seq<T>, power: nat)
    requires c.data == [] && c.pos == 0
    requires CodecOk(c1) && CodecOk(c2) && c1.size == 64 && c2.size == 128
    modifies c
    ensures c.data == File(PrunedSections(BN254_MODULUS, power, Points(c1, g1), Points(c2, g2)))
  {
    hide LeBytes, Points, Preamble, HeaderBody, Pow2, SectionBytes;
    ModulusSize();
    var ok := WriteHeader(c, BN254_MODULUS, power, NUM_SECTIONS_PRUNED);
    PointsLength(c1, g1);
    PointsLength(c2, g2);
    var g1Size := |g1| * 64;
    Append(c, LeBytes(2, 4));
    Append(c, LeBytes(g1Size, 8));
    WritePoints(c1, c, g1);
    var g2Size := |g2| * 128;
    Append(c, LeBytes(3, 4));
    Append(c, LeBytes(g2Size, 8));
    WritePoints(c2, c, g2);
    PrunedBytes(power, Points(c1, g1), Points(c2, g2));
  }

  lemma {:induction false} PointsLength<T(!new)>(codec: Codec<T>, ps: seq<T>)
    requires CodecOk(codec)
    ensures |Points(codec, ps)| == |ps| * codec.size
  {
    if |ps| > 0 {
      PointsLength(codec, ps[1..]);
      OneMore(|ps| - 1, codec.size);
      assert |codec.enc(ps[0])| == codec.size;
    }
  }

  lemma OneMore(n: nat, k: nat)
    ensures (n + 1) * k == n * k + k
  {
  }

  /** The modulus of BN254's base field has exactly 32 bytes. */
  lemma ModulusSize()
    ensures Pow2(248) <= BN254_MODULUS < Pow2(256)
  {
    hide Pow2;
    assert Pow2(8) == 256 by { EightBits(); }
    Pow2Add(8, 8);
    Pow2Add(16, 16);
    Pow2Add(32, 32);
    Pow2Add(64, 64);
    Pow2Add(128, 64);
    Pow2Add(192, 32);
    Pow2Add(224, 16);
    Pow2Add(240, 8);
    Pow2Add(248, 8);
    assert Pow2(64) == 0x1_0000_0000_0000_0000;
    assert Pow2(128) == 0x1_0000_0000_0000_0000_0000_0000_0000_0000;
  }

  lemma PrunedBytes(power: nat, b1: seq<Byte>, b2: seq<Byte>)
    ensures File(PrunedSections(BN254_MODULUS, power, b1, b2))
         == Preamble(NUM_SECTIONS_PRUNED) + SectionBytes(Section(1, HeaderBody(BN254_MODULUS, power)))
            + LeBytes(2, 4) + LeBytes(|b1|, 8) + b1 + LeBytes(3, 4) + LeBytes(|b2|, 8) + b2
  {
    hide LeBytes, Preamble, HeaderBody, Sections, SectionBytes;
    var (h, s2, s3) := (Section(1, HeaderBody(BN254_MODULUS, power)), Section(2, b1), Section(3, b2));
    assert PrunedSections(BN254_MODULUS, power, b1, b2) == [h] + [s2] + [s3];
    SectionsConcat([h] + [s2], [s3]);
    SectionsConcat([h], [s2]);
    SectionsOne(h);
    SectionsOne(s2);
    SectionsOne(s3);
    var front := Preamble(NUM_SECTIONS_PRUNED) + SectionBytes(h);
    assert File(PrunedSections(BN254_MODULUS, power, b1, b2)) == (front + SectionBytes(s2)) + SectionBytes(s3);
    SectionAfter(front, s2);
    SectionAfter(front + SectionBytes(s2), s3);
  }

  lemma SectionAfter(front: seq<Byte>, s: Section)
    ensures front + SectionBytes(s) == front + LeBytes(s.id, 4) + LeBytes(|s.body|, 8) + s.body
  {
    hide LeBytes;
  }

  /** Writing a full file and reading it back. */
  method RoundTrip<S(!new), T(!new)>(c1: Codec<S>, c2: Codec<T>, modulus: nat, power: nat, g1: seq<S>, g2: seq<T>,
                                     numG1: nat, numG2: nat)
    returns (o: Outcome<(seq<S>, seq<T>)>)
    requires CodecOk(c1) && CodecOk(c2) && power < 63
    requires |Points(c1, g1)| < Pow2(63) && |Points(c2, g2)| < Pow2(63)
    requires forall i :: 0 <= i < |g1| ==> c1.onCurve(g1[i])
    requires forall i :: 0 <= i < |g2| ==> c2.onCurve(g2[i]) && c2.torsionFree(g2[i])
    requires numG1 <= |g1| && numG2 <= |g2|
    ensures o == if Pow2(248) <= modulus < Pow2(256) then Expected(power, g1, g2, numG1, numG2) else Panic
  {
    hide *;
    var w := new Cursor([]);
    var ok := WritePtau(c1, c2, w, modulus, g1, g2, power);
    if !ok {
      return Panic;
    }
    ReadInvertsFull(c1, c2, modulus, power, g1, g2, numG1, numG2);
    var r := new Cursor(w.data);
    o := ReadPtau(c1, c2, r, modulus, numG1, numG2);
  }
}
