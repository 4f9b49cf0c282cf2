/** Two scalar multiplications on one doubling chain: both scalars are read two
    bits at a time, and one table holds every pair of window multiples. */
module JointWindow {
  import opened PrimeGroup
  import opened Bits

  /** A byte shifted right by s bits, for the four shifts of the scan. */
  function Shifted(x: Byte, s: nat): nat
    requires s in {0, 2, 4, 6, 8}
  {
    if s == 8 then 0 else if s == 6 then x / 64 else if s == 4 then x / 16 else if s == 2 then x / 4 else x
  }

  function Window(x: Byte, s: nat): (w: nat)
    requires s in {0, 2, 4, 6}
    ensures w < 4
  {
    Shifted(x, s) % 4
  }

  lemma WindowStep(x: Byte, s: nat)
    requires s in {0, 2, 4, 6}
    ensures Shifted(x, s) == Window(x, s) + 4 * Shifted(x, s + 2)
  {
  }

  /** What the scan has read of a scalar: the bytes above k, and the windows of
      byte k from shift s upward. */
  function ReadSoFar(b: seq<Byte>, k: nat, s: nat): nat
    requires k < |b| && s in {0, 2, 4, 6, 8}
  {
    FromBytes(b[k + 1..]) * (if s == 8 then 1 else if s == 6 then 4 else if s == 4 then 16 else if s == 2 then 64 else 256)
      + Shifted(b[k], s)
  }

  lemma ReadStep(b: seq<Byte>, k: nat, s: nat)
    requires k < |b| && s in {0, 2, 4, 6}
    ensures ReadSoFar(b, k, s) == 4 * ReadSoFar(b, k, s + 2) + Window(b[k], s)
  {
    WindowStep(b[k], s);
  }

  lemma ReadByte(b: seq<Byte>, k: nat)
    requires k < |b|
    ensures ReadSoFar(b, k, 0) == FromBytes(b[k..])
    ensures ReadSoFar(b, k, 8) == FromBytes(b[k + 1..])
  {
    assert b[k..][1..] == b[k + 1..];
  }

  /** x * L + y * R. */
  function Joint(x: int, y: int, left: Pt, right: Pt): Pt {
    Plus(Smul(x, left), Smul(y, right))
  }

  lemma JointAdd(x: int, y: int, x': int, y': int, left: Pt, right: Pt)
    ensures Joint(x + x', y + y', left, right) == Plus(Joint(x, y, left, right), Joint(x', y', left, right))
  {
    hide Plus, Smul;
    SmulAdd(x, x', left);
    SmulAdd(y, y', right);
    PlusSwap(Smul(x, left), Smul(x', left), Smul(y, right), Smul(y', right));
  }

  lemma JointZero(left: Pt, right: Pt)
    ensures Joint(0, 0, left, right) == O
  {
    SmulSmall(left);
    SmulSmall(right);
    PlusO(O);
  }

  lemma JointQuadruple(x: int, y: int, left: Pt, right: Pt)
    ensures Joint(2 * x, 2 * y, left, right) == Plus(Joint(x, y, left, right), Joint(x, y, left, right))
    ensures Joint(4 * x, 4 * y, left, right)
         == Plus(Joint(2 * x, 2 * y, left, right), Joint(2 * x, 2 * y, left, right))
  {
    hide Joint, Plus;
    JointAdd(x, y, x, y, left, right);
    JointAdd(2 * x, 2 * y, 2 * x, 2 * y, left, right);
    assert 2 * x + 2 * x == 4 * x && 2 * y + 2 * y == 4 * y && x + x == 2 * x && y + y == 2 * y;
  }

  /** 0, 1, 2 and 3 times a base. */
  method SmallMultiples(base: Pt) returns (m: seq<Pt>)
    ensures |m| == 4 && forall i :: 0 <= i < 4 ==> m[i] == Smul(i, base)
  {
    hide Plus, Smul;
    SmulSmall(base);
    SmulAdd(2, 1, base);
    var twice := Plus(base, base);
    m := [O, base, twice, Plus(twice, base)];
  }

  lemma IndexSplit(i: nat, j: nat, t: nat)
    requires i < 4 && j < 4 && t == 4 * i + j
    ensures t / 4 == i && t % 4 == j
  {
  }

  method PairTable(left: Pt, right: Pt) returns (table: seq<Pt>)
    ensures |table| == 16
    ensures forall i, j :: 0 <= i < 4 && 0 <= j < 4 ==> table[4 * i + j] == Joint(i, j, left, right)
  {
    hide Plus, Smul;
    var leftMultiples := SmallMultiples(left);
    var rightMultiples := SmallMultiples(right);
    table := [];
    for leftDigit := 0 to 4
      invariant |table| == 4 * leftDigit
      invariant forall t :: 0 <= t < |table| ==> table[t] == Joint(t / 4, t % 4, left, right)
    {
      for rightDigit := 0 to 4
        invariant |table| == 4 * leftDigit + rightDigit
        invariant forall t :: 0 <= t < |table| ==> table[t] == Joint(t / 4, t % 4, left, right)
      {
        IndexSplit(leftDigit, rightDigit, |table|);
        table := table + [Plus(leftMultiples[leftDigit], rightMultiples[rightDigit])];
      }
    }
    forall i, j | 0 <= i < 4 && 0 <= j < 4
      ensures table[4 * i + j] == Joint(i, j, left, right)
    {
      IndexSplit(i, j, 4 * i + j);
    }
  }

  /** One window of both scalars. */
  method Step(acc0: Pt, started0: bool, table: seq<Pt>, l: nat, r: nat,
              ghost x: int, ghost y: int, ghost left: Pt, ghost right: Pt)
    returns (acc: Pt, started: bool)
    requires l < 4 && r < 4 && |table| == 16
    requires forall i, j :: 0 <= i < 4 && 0 <= j < 4 ==> table[4 * i + j] == Joint(i, j, left, right)
    requires acc0 == Joint(x, y, left, right)
    requires !started0 ==> acc0 == O
    ensures acc == Joint(4 * x + l, 4 * y + r, left, right)
    ensures !started ==> acc == O
  {
    hide Joint, Plus;
    acc, started := acc0, started0;
    JointQuadruple(x, y, left, right);
    JointAdd(4 * x, 4 * y, l, r, left, right);
    JointZero(left, right);
    PlusO(O);
    if started {
      var twice := Plus(acc, acc);
      acc := Plus(twice, twice);
    }
    var tableIndex := 4 * l + r;
    PlusO(acc);
    if tableIndex != 0 {
      acc := Plus(acc, table[tableIndex]);
      started := true;
    }
  }

  /** One byte of both scalars, from its top window down. */
  method ScanByte(acc0: Pt, started0: bool, table: seq<Pt>, leftBytes: seq<Byte>, rightBytes: seq<Byte>, k: nat,
                  ghost left: Pt, ghost right: Pt)
    returns (acc: Pt, started: bool)
    requires |leftBytes| == |rightBytes| && k < |leftBytes| && |table| == 16
    requires forall i, j :: 0 <= i < 4 && 0 <= j < 4 ==> table[4 * i + j] == Joint(i, j, left, right)
    requires acc0 == Joint(FromBytes(leftBytes[k + 1..]), FromBytes(rightBytes[k + 1..]), left, right)
    requires !started0 ==> acc0 == O
    ensures acc == Joint(FromBytes(leftBytes[k..]), FromBytes(rightBytes[k..]), left, right)
    ensures !started ==> acc == O
  {
    hide Joint, FromBytes, ReadSoFar, Window;
    ReadByte(leftBytes, k);
    ReadByte(rightBytes, k);
    acc, started := acc0, started0;
    var shift := 8;
    while shift > 0
      invariant shift in {0, 2, 4, 6, 8}
      invariant acc == Joint(ReadSoFar(leftBytes, k, shift), ReadSoFar(rightBytes, k, shift), left, right)
      invariant !started ==> acc == O
    {
      shift := shift - 2;
      ReadStep(leftBytes, k, shift);
      ReadStep(rightBytes, k, shift);
      acc, started := Step(acc, started, table, Window(leftBytes[k], shift), Window(rightBytes[k], shift),
                           ReadSoFar(leftBytes, k, shift + 2), ReadSoFar(rightBytes, k, shift + 2), left, right);
    }
  }

  method VartimeDoubleScalarMul(leftBytes: seq<Byte>, rightBytes: seq<Byte>, left: Pt, right: Pt) returns (acc: Pt)
    requires |leftBytes| == |rightBytes|
    ensures acc == Plus(Smul(FromBytes(leftBytes), left), Smul(FromBytes(rightBytes), right))
  {
    hide FromBytes, Plus, Smul;
    var table := PairTable(left, right);
    acc := O;
    var started := false;
    var k := |leftBytes|;
    EmptyBytes(leftBytes);
    EmptyBytes(rightBytes);
    JointZero(left, right);
    while k > 0
      invariant 0 <= k <= |leftBytes|
      invariant acc == Joint(FromBytes(leftBytes[k..]), FromBytes(rightBytes[k..]), left, right)
      invariant !started ==> acc == O
    {
      k := k - 1;
      acc, started := ScanByte(acc, started, table, leftBytes, rightBytes, k, left, right);
    }
    assert leftBytes[0..] == leftBytes && rightBytes[0..] == rightBytes;
  }

  lemma EmptyBytes(b: seq<Byte>)
    ensures FromBytes(b[|b|..]) == 0
  {
  }
}
