/** Compressed rows built from a list of (row, column, value) triples, and read back
    by the iterator. */
module Coo {
  import opened PrimeField
  import opened Sparse
  import opened R1cs
  import opened Wrappers

  type Triple = (nat, nat, Fe)

  /** The entries of row r, in the order they are listed. */
  function Select(coo: seq<Triple>, r: nat): Entries {
    if |coo| == 0 then []
    else
      var (row, col, x) := coo[|coo| - 1];
      var init := Select(coo[..|coo| - 1], r);
      if row == r then init + [(x, col)] else init
  }

  predicate Increasing(es: Entries) {
    forall i :: 0 <= i < |es| - 1 ==> es[i].1 < es[i + 1].1
  }

  predicate RowsInside(coo: seq<Triple>, rows: nat) {
    forall i :: 0 <= i < |coo| ==> coo[i].0 < rows
  }

  /** Every row exists, and its columns come in strictly increasing order. */
  ghost predicate Accepted(coo: seq<Triple>, rows: nat) {
    RowsInside(coo, rows) && forall r: nat :: r < rows ==> Increasing(Select(coo, r))
  }

  /** m has exactly these rows. */
  ghost predicate Holds(m: SparseMatrix, coo: seq<Triple>, rows: nat) {
    Rows(m) && NumRows(m) == rows && forall r: nat :: r < rows ==> Row(m, r) == Select(coo, r)
  }

  // ---------------------------------------------------------------- construction

  /** The rows one after the other. */
  function Stack(buckets: seq<Entries>): (m: SparseMatrix) {
    if |buckets| == 0 then EMPTY else AppendRow(Stack(buckets[..|buckets| - 1]), buckets[|buckets| - 1])
  }

  lemma {:induction false} StackRows(buckets: seq<Entries>)
    ensures Rows(Stack(buckets)) && NumRows(Stack(buckets)) == |buckets|
    ensures forall r :: 0 <= r < |buckets| ==> Row(Stack(buckets), r) == buckets[r]
  {
    hide AppendRow, Row;
    if |buckets| == 0 {
      EmptyRows();
    } else {
      StackRows(buckets[..|buckets| - 1]);
      AppendRowRows(Stack(buckets[..|buckets| - 1]), buckets[|buckets| - 1]);
    }
  }

  lemma EmptyRows()
    ensures Rows(EMPTY) && NumRows(EMPTY) == 0
  {
  }

  /** No matrix means a panic: an unknown row, or columns out of order. */
  method New(coo: seq<Triple>, rows: nat, cols: nat) returns (o: Option<SparseMatrix>)
    ensures o.Some? <==> Accepted(coo, rows)
    ensures o.Some? ==> o.value.cols == cols && Holds(o.value, coo, rows)
  {
    hide Row, AppendRow;
    var buckets: seq<Entries> := seq(rows, _ => []);
    for i := 0 to |coo|
      invariant |buckets| == rows && RowsInside(coo[..i], rows)
      invariant forall r: nat :: r < rows ==> buckets[r] == Select(coo[..i], r)
    {
      assert coo[..i + 1][..i] == coo[..i];
      var (row, col, x) := coo[i];
      if row >= rows {
        return None;
      }
      buckets := buckets[row := buckets[row] + [(x, col)]];
    }
    assert coo[..|coo|] == coo;
    for r := 0 to rows
      invariant forall q :: 0 <= q < r ==> Increasing(buckets[q])
    {
      if !Increasing(buckets[r]) {
        return None;
      }
    }
    StackRows(buckets);
    var m := Flatten(buckets);
    o := Some(m.(cols := cols));
    SameRows(m, cols);
  }

  lemma SameRows(m: SparseMatrix, cols: nat)
    requires Rows(m)
    ensures Rows(m.(cols := cols)) && NumRows(m.(cols := cols)) == NumRows(m)
    ensures forall r :: 0 <= r < NumRows(m) ==> Row(m.(cols := cols), r) == Row(m, r)
  {
  }

  /** First the row pointers, then the entries. */
  method Flatten(buckets: seq<Entries>) returns (m: SparseMatrix)
    ensures m == Stack(buckets)
  {
    hide Values, Columns;
    var indptr: seq<nat> := [0];
    for i := 0 to |buckets|
      invariant indptr == Stack(buckets[..i]).indptr && |indptr| == i + 1
      invariant indptr[i] == |Stack(buckets[..i]).indices|
    {
      assert buckets[..i + 1][..i] == buckets[..i];
      indptr := indptr + [indptr[i] + |buckets[i]|];
    }
    var indices: seq<nat>, data: seq<Fe> := [], [];
    for i := 0 to |buckets|
      invariant indices == Stack(buckets[..i]).indices && data == Stack(buckets[..i]).data
      invariant Stack(buckets[..i]).cols == 0
    {
      assert buckets[..i + 1][..i] == buckets[..i];
      indices := indices + Columns(buckets[i]);
      data := data + Values(buckets[i]);
    }
    assert buckets[..|buckets|] == buckets;
    m := SparseMatrix(data, indices, indptr, 0);
  }

  // ---------------------------------------------------------------- reading back

  /** The triples of a matrix in storage order. */
  ghost predicate Lists(out: seq<Triple>, m: SparseMatrix)
    requires Rows(m)
  {
    && |out| == |m.data|
    && forall r: nat, i: nat {:trigger InRow(m, r, i)} ::
         InRow(m, r, i) && i < |out| ==> out[i] == (r, m.indices[i], m.data[i])
  }

  method Collect(m: SparseMatrix) returns (out: seq<Triple>)
    requires Rows(m)
    ensures Lists(out, m)
  {
    var it := new Iter(m);
    out := [];
    while it.i < it.nnz
      invariant it.Valid() && it.m == m && |out| == it.i
      invariant forall r: nat, i: nat {:trigger InRow(m, r, i)} ::
        InRow(m, r, i) && i < |out| ==> out[i] == (r, m.indices[i], m.data[i])
      decreases it.nnz - it.i
    {
      ghost var n := it.i;
      var item := it.Next();
      forall r: nat, i: nat | InRow(m, r, i) && i < |out + [item.value]|
        ensures (out + [item.value])[i] == (r, m.indices[i], m.data[i])
      {
        if i == n { RowUnique(m, r, item.value.0, n); }
      }
      out := out + [item.value];
    }
  }

  predicate Sorted(coo: seq<Triple>) {
    forall i, j :: 0 <= i <= j < |coo| ==> coo[i].0 <= coo[j].0
  }

  /** How many triples belong to rows before r. */
  function Before(coo: seq<Triple>, r: nat): nat {
    if |coo| == 0 then 0
    else Before(coo[..|coo| - 1], r) + if coo[|coo| - 1].0 < r then 1 else 0
  }

  lemma {:induction false} BeforeStep(coo: seq<Triple>, r: nat)
    ensures Before(coo, r + 1) == Before(coo, r) + |Select(coo, r)|
    ensures Before(coo, 0) == 0
  {
    if |coo| > 0 { BeforeStep(coo[..|coo| - 1], r); }
  }

  lemma {:induction false} BeforeAll(coo: seq<Triple>, r: nat)
    requires RowsInside(coo, r)
    ensures Before(coo, r) == |coo|
  {
    if |coo| > 0 { BeforeAll(coo[..|coo| - 1], r); }
  }

  /** In a list sorted by rows, the entries of one row are contiguous. */
  lemma {:induction false} SortedAt(coo: seq<Triple>, r: nat, k: nat)
    requires Sorted(coo) && k < |Select(coo, r)|
    ensures Before(coo, r) + k < |coo|
    ensures coo[Before(coo, r) + k] == (r, Select(coo, r)[k].1, Select(coo, r)[k].0)
  {
    var last := |coo| - 1;
    var (init, row) := (coo[..last], coo[last].0);
    if k < |Select(init, r)| {
      SortedAt(init, r, k);
      assert init[Before(init, r) + k].0 == r;
    } else {
      BeforeStep(init, r);
      BeforeAll(init, r + 1);
    }
  }

  lemma {:induction false} RowStart(m: SparseMatrix, coo: seq<Triple>, rows: nat, r: nat)
    requires Holds(m, coo, rows) && r <= rows
    ensures m.indptr[r] == Before(coo, r)
  {
    if r == 0 {
      BeforeStep(coo, 0);
    } else {
      RowStart(m, coo, rows, r - 1);
      BeforeStep(coo, r - 1);
      assert |Row(m, r - 1)| == m.indptr[r] - m.indptr[r - 1];
    }
  }

  lemma ReadAt(m: SparseMatrix, coo: seq<Triple>, rows: nat, out: seq<Triple>, i: nat)
    requires Holds(m, coo, rows) && RowsInside(coo, rows) && Sorted(coo) && Lists(out, m) && i < |out|
    ensures i < |coo| && out[i] == coo[i]
  {
    hide Select, Before, Sorted, RowsInside;
    var r := RowOf(m, i);
    var k := i - m.indptr[r];
    assert Row(m, r)[k] == (m.data[i], m.indices[i]);
    RowStart(m, coo, rows, r);
    SortedAt(coo, r, k);
  }

  /** Building from triples sorted by row and iterating gives the triples back. */
  lemma BuildThenIterate(m: SparseMatrix, coo: seq<Triple>, rows: nat, out: seq<Triple>)
    requires Holds(m, coo, rows) && RowsInside(coo, rows) && Sorted(coo) && Lists(out, m)
    ensures out == coo
  {
    hide Select, Before, Sorted, RowsInside, Row;
    RowStart(m, coo, rows, rows);
    BeforeAll(coo, rows);
    forall i | 0 <= i < |out| ensures i < |coo| && out[i] == coo[i] { ReadAt(m, coo, rows, out, i); }
  }

  method RoundTrip(coo: seq<Triple>, rows: nat, cols: nat) returns (out: Option<seq<Triple>>)
    ensures out.Some? <==> Accepted(coo, rows)
    ensures out.Some? && Sorted(coo) ==> out.value == coo
  {
    var o := New(coo, rows, cols);
    if o.None? {
      return None;
    }
    var triples := Collect(o.value);
    if Sorted(coo) {
      BuildThenIterate(o.value, coo, rows, triples);
    }
    out := Some(triples);
  }
}
