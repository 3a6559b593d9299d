/** Compressed sparse row matrices (nova/src/sparse.rs). */
module Csr {
  import opened Wrappers
  import opened Field
  import opened Vectors

  datatype Cell = Cell(col: nat, val: F)

  /** The rows of a matrix, each a list of cells. */
  type Rows = seq<seq<Cell>>

  /** All values, all columns, and where each row starts. */
  datatype Matrix = Matrix(data: seq<F>, indices: seq<nat>, indptr: seq<nat>, cols: nat)

  function Values(cells: seq<Cell>): (v: seq<F>)
    ensures |v| == |cells|
  {
    seq<F>(|cells|, i requires 0 <= i < |cells| => cells[i].val)
  }

  function Columns(cells: seq<Cell>): (v: seq<nat>)
    ensures |v| == |cells|
  {
    seq(|cells|, i requires 0 <= i < |cells| => cells[i].col)
  }

  /** m stores exactly these rows. */
  ghost predicate Stores(m: Matrix, L: Rows) {
    && m.data == Values(Flat(L)) && m.indices == Columns(Flat(L))
    && |m.indptr| == |L| + 1
    && forall i :: 0 <= i <= |L| ==> m.indptr[i] == |Flat(L[..i])|
  }

  predicate Increasing(row: seq<Cell>) {
    forall i :: 0 <= i < |row| - 1 ==> row[i].col < row[i + 1].col
  }

  // ---- Construction ----

  lemma PrefixOfRows(L: Rows, i: nat)
    requires i < |L|
    ensures Flat(L) == Flat(L[..i]) + L[i] + Flat(L[i + 1..])
    ensures |Flat(L[..i + 1])| == |Flat(L[..i])| + |L[i]|
  {
    FlatSnoc(L, i);
    assert L == L[..i + 1] + L[i + 1..];
    FlatAppend(L[..i + 1], L[i + 1..]);
  }

  /** `SparseMatrix::new`: rows beyond the given ones are empty; unsorted rows are refused. */
  method New(rows: Rows, count: nat, cols: nat) returns (r: Option<Matrix>, ghost L: Rows)
    requires |rows| <= count
    ensures L == rows + seq(count - |rows|, _ => [])
    ensures r.Some? <==> forall i :: 0 <= i < |L| ==> Increasing(L[i])
    ensures r.Some? ==> Stores(r.value, L) && r.value.cols == cols
  {
    var table := rows + seq(count - |rows|, _ => []);
    L := table;
    for i := 0 to |table|
      invariant forall k :: 0 <= k < i ==> Increasing(table[k])
    {
      if !Increasing(table[i]) {
        return None, L;
      }
    }
    var m := Compress(table, cols);
    r := Some(m);
  }

  method Compress(table: Rows, cols: nat) returns (m: Matrix)
    ensures Stores(m, table) && m.cols == cols
  {
    hide Flat;
    var indptr, indices, data := [0], [], [];
    NoRowsYet(table);
    for i := 0 to |table|
      invariant |indptr| == i + 1 && forall k :: 0 <= k <= i ==> indptr[k] == |Flat(table[..k])|
      invariant data == Values(Flat(table[..i])) && indices == Columns(Flat(table[..i]))
    {
      FlatSnoc(table, i);
      indptr := indptr + [indptr[i] + |table[i]|];
      indices := indices + Columns(table[i]);
      data := data + Values(table[i]);
    }
    assert table[..|table|] == table;
    m := Matrix(data, indices, indptr, cols);
  }

  lemma NoRowsYet(L: Rows)
    ensures Flat(L[..0]) == []
  {
  }

  // ---- Multiplication ----

  predicate ColumnsBelow(row: seq<Cell>, n: nat) {
    forall i :: 0 <= i < |row| ==> row[i].col < n
  }

  /** The inner product of a row with a vector. */
  function RowDot(row: seq<Cell>, v: seq<F>): F
    requires ColumnsBelow(row, |v|)
  {
    if row == [] then 0
    else
      var k := |row| - 1;
      Add(RowDot(row[..k], v), Mul(row[k].val, v[row[k].col]))
  }

  lemma RowSlice(m: Matrix, L: Rows, i: nat)
    requires Stores(m, L) && i < |L|
    ensures m.indptr[i] + |L[i]| == m.indptr[i + 1] <= |m.data| == |m.indices|
    ensures m.data[m.indptr[i]..m.indptr[i + 1]] == Values(L[i])
    ensures m.indices[m.indptr[i]..m.indptr[i + 1]] == Columns(L[i])
  {
    PrefixOfRows(L, i);
  }

  ghost predicate RowsBelow(L: Rows, n: nat) {
    forall i :: 0 <= i < |L| ==> ColumnsBelow(L[i], n)
  }

  /** `multiply_vec`: entry i is the inner product of row i with the vector. */
  method MultiplyVec(m: Matrix, v: seq<F>, ghost L: Rows) returns (out: seq<F>)
    requires Stores(m, L) && m.cols == |v| && RowsBelow(L, |v|)
    ensures |out| == |L| && forall i :: 0 <= i < |L| ==> out[i] == RowDot(L[i], v)
  {
    out := [];
    for i := 0 to |m.indptr| - 1
      invariant |out| == i && forall k :: 0 <= k < i ==> out[k] == RowDot(L[k], v)
    {
      RowSlice(m, L, i);
      var sum := SumRow(m.data[m.indptr[i]..m.indptr[i + 1]], m.indices[m.indptr[i]..m.indptr[i + 1]], v, L[i]);
      out := out + [sum];
    }
  }

  method SumRow(data: seq<F>, indices: seq<nat>, v: seq<F>, ghost row: seq<Cell>) returns (sum: F)
    requires data == Values(row) && indices == Columns(row) && ColumnsBelow(row, |v|)
    ensures sum == RowDot(row, v)
  {
    sum := 0;
    for k := 0 to |data|
      invariant sum == RowDot(row[..k], v)
    {
      assert row[..k + 1][..k] == row[..k];
      sum := Add(sum, Mul(data[k], v[indices[k]]));
    }
    assert row[..|row|] == row;
  }

  /** The row written out in full. */
  function DenseRow(row: seq<Cell>, n: nat): (d: seq<F>)
    requires ColumnsBelow(row, n)
    ensures |d| == n
  {
    if row == [] then Zeros(n)
    else
      var k := |row| - 1;
      var d := DenseRow(row[..k], n);
      d[row[k].col := Add(d[row[k].col], row[k].val)]
  }

  /** Multiplying the stored row is multiplying the dense one. */
  lemma {:induction false} RowDotIsDense(row: seq<Cell>, v: seq<F>)
    requires ColumnsBelow(row, |v|)
    ensures RowDot(row, v) == Dot(DenseRow(row, |v|), v)
  {
    if row == [] {
      DotZeros(|v|, v);
    } else {
      var k := |row| - 1;
      RowDotIsDense(row[..k], v);
      DotUpdate(DenseRow(row[..k], |v|), row[k].col, row[k].val, v);
    }
  }

  /** The value stored for a column, zero when there is none. */
  function ValueAt(row: seq<Cell>, c: nat): F {
    if row == [] then 0
    else if row[|row| - 1].col == c then row[|row| - 1].val
    else ValueAt(row[..|row| - 1], c)
  }

  lemma {:induction false} LastColumnIsGreatest(row: seq<Cell>, k: nat)
    requires Increasing(row) && k < |row|
    ensures row[k].col <= row[|row| - 1].col
    decreases |row| - k
  {
    if k < |row| - 1 {
      LastColumnIsGreatest(row, k + 1);
    }
  }

  lemma {:induction false} AbsentIsZero(row: seq<Cell>, n: nat, c: nat)
    requires ColumnsBelow(row, n) && c < n && forall k :: 0 <= k < |row| ==> row[k].col != c
    ensures DenseRow(row, n)[c] == 0
  {
    if row != [] {
      AbsentIsZero(row[..|row| - 1], n, c);
    }
  }

  /** In a sorted row, the dense entries are the stored values, and zero elsewhere. */
  lemma {:induction false} DenseEntries(row: seq<Cell>, n: nat, c: nat)
    requires ColumnsBelow(row, n) && Increasing(row) && c < n
    ensures DenseRow(row, n)[c] == ValueAt(row, c)
  {
    if row != [] {
      var m := |row| - 1;
      if row[m].col == c {
        forall k | 0 <= k < m
          ensures row[..m][k].col != c
        {
          LastColumnIsGreatest(row[..m], k);
          assert row[m - 1].col < row[m].col;
        }
        AbsentIsZero(row[..m], n, c);
        AddZero(row[m].val);
      } else {
        DenseEntries(row[..m], n, c);
      }
    }
  }

  // ---- Iteration ----

  function RowTriples(row: seq<Cell>, i: nat): (t: seq<(nat, nat, F)>)
    ensures |t| == |row|
  {
    seq(|row|, k requires 0 <= k < |row| => (i, row[k].col, row[k].val))
  }

  /** All entries as (row, column, value), row by row. */
  ghost function Triples(L: Rows): (t: seq<(nat, nat, F)>)
    ensures |t| == |Flat(L)|
  {
    if L == [] then [] else Triples(L[..|L| - 1]) + RowTriples(L[|L| - 1], |L| - 1)
  }

  lemma {:induction false} TripleAt(L: Rows, r: nat, i: nat)
    requires r < |L| && |Flat(L[..r])| <= i < |Flat(L[..r + 1])|
    ensures i < |Flat(L)| && Triples(L)[i] == (r, Flat(L)[i].col, Flat(L)[i].val)
    decreases |L|
  {
    var n := |L| - 1;
    if r == n {
      assert L[..n + 1] == L;
    } else {
      assert L[..n][..r] == L[..r] && L[..n][..r + 1] == L[..r + 1];
      TripleAt(L[..n], r, i);
    }
  }

  class Iter {
    const m: Matrix
    ghost const L: Rows
    var row: nat
    var i: nat
    const nnz: nat

    /** Unless it is at the end, entry i lies in the current row. */
    ghost predicate Valid()
      reads this
    {
      && Stores(m, L) && nnz == |Flat(L)| && i <= nnz && row < |L|
      && (i < nnz ==> m.indptr[row] <= i < m.indptr[row + 1])
    }

    /** `iter` on a matrix with at least one entry; on an empty one it runs off the row pointers. */
    constructor (m: Matrix, ghost L: Rows)
      requires Stores(m, L) && Flat(L) != []
      ensures Valid() && i == 0 && this.m == m && this.L == L
    {
      var r := 0;
      assert L[..|L|] == L && L[..0] == [];
      while m.indptr[r + 1] == 0
        invariant r < |L| && m.indptr[r] == 0
        decreases |L| - r
      {
        r := r + 1;
      }
      this.m, this.L := m, L;
      row, i, nnz := r, 0, m.indptr[|m.indptr| - 1];
    }

    /** `Iter::next` yields entry i, for i = 0, 1, ..., and then nothing. */
    method Next() returns (item: Option<(nat, nat, F)>)
      requires Valid()
      modifies this
      ensures Valid()
      ensures old(i) == nnz ==> item == None && i == old(i)
      ensures old(i) < nnz ==> i == old(i) + 1 && item == Some(Triples(L)[old(i)])
    {
      if i == nnz {
        return None;
      }
      TripleAt(L, row, i);
      item := Some((row, m.indices[i], m.data[i]));
      i := i + 1;
      if i == nnz {
        return;
      }
      assert L[..|L|] == L;
      while i >= m.indptr[row + 1]
        invariant row < |L| && m.indptr[row] <= i < nnz && i == old(i) + 1
        decreases |L| - row
      {
        row := row + 1;
      }
    }
  }
}
