/**
 * How nalgebra sees memory: a matrix (or a view of one) has nrows x ncols entries, and
 * entry (i, j) lives in slot offset + i * rstride + j * cstride of a flat buffer.
 * Strides are `usize`, so never negative. Owned matrices store their data column by column.
 */
module Nalgebra {
  import opened Arith

  datatype MatrixView = MatrixView(offset: nat, nrows: nat, ncols: nat, rstride: nat, cstride: nat)

  function Slot(m: MatrixView, i: nat, j: nat): nat {
    m.offset + i * m.rstride + j * m.cstride
  }

  /** Every entry of `m` lies inside a buffer of `n` slots. */
  ghost predicate ViewFits(m: MatrixView, n: nat) {
    forall i: nat, j: nat :: i < m.nrows && j < m.ncols ==> Slot(m, i, j) < n
  }

  /** No two entries of `m` share a slot. */
  ghost predicate Disjoint(m: MatrixView) {
    forall i: nat, j: nat, i': nat, j': nat ::
      (i < m.nrows && j < m.ncols && i' < m.nrows && j' < m.ncols && Slot(m, i, j) == Slot(m, i', j'))
      ==> i == i' && j == j'
  }

  function Entry<T>(buf: seq<T>, m: MatrixView, i: nat, j: nat): T
    requires ViewFits(m, |buf|) && i < m.nrows && j < m.ncols
  {
    buf[Slot(m, i, j)]
  }

  /**
   * `rows_generic_with_step(start, count, step)`: `count` rows taken every `step + 1` rows
   * from row `start`; `rows(start, count)` and `row(i)` are the cases with step 0.
   * The requires is nalgebra's own bounds assertion.
   */
  function RowsWithStep(m: MatrixView, start: nat, count: nat, step: nat): (r: MatrixView)
    requires start + (step + 1) * count <= m.nrows + step
    ensures r.nrows == count && r.ncols == m.ncols
    ensures forall n: nat :: ViewFits(m, n) ==> ViewFits(r, n)
  {
    var r := MatrixView(m.offset + start * m.rstride, count, m.ncols, (step + 1) * m.rstride, m.cstride);
    assert forall n: nat :: ViewFits(m, n) ==> ViewFits(r, n) by {
      forall n: nat, i: nat, j: nat | ViewFits(m, n) && i < count && j < m.ncols ensures Slot(r, i, j) < n {
        MulMono(i + 1, count, step + 1);
        assert i * ((step + 1) * m.rstride) == (i * (step + 1)) * m.rstride;
        assert Slot(r, i, j) == Slot(m, start + i * (step + 1), j);
      }
    }
    r
  }

  /** Entry (i, j) of the selected rows is entry (start + i * (step + 1), j) of the matrix. */
  lemma RowsWithStepSlot(m: MatrixView, start: nat, count: nat, step: nat, i: nat, j: nat)
    requires start + (step + 1) * count <= m.nrows + step
    ensures Slot(RowsWithStep(m, start, count, step), i, j) == Slot(m, start + i * (step + 1), j)
  {
    assert i * ((step + 1) * m.rstride) == (i * (step + 1)) * m.rstride;
  }

  /** An owned, dynamically sized matrix; nalgebra keeps its entries column by column. */
  datatype DMatrix<T> = DMatrix(nrows: nat, ncols: nat, data: seq<T>) {
    ghost predicate Valid() {
      |data| == nrows * ncols
    }
  }

  /** The storage of an owned matrix seen as a view: row stride 1, column stride nrows. */
  function Storage<T>(d: DMatrix<T>): (m: MatrixView)
    ensures m.nrows == d.nrows && m.ncols == d.ncols
    ensures forall i: nat, j: nat :: Slot(m, i, j) == i + j * d.nrows
    ensures d.Valid() ==> ViewFits(m, |d.data|)
    ensures Disjoint(m)
  {
    var m := MatrixView(0, d.nrows, d.ncols, 1, d.nrows);
    assert d.Valid() ==> ViewFits(m, |d.data|) by {
      if d.Valid() {
        forall i: nat, j: nat | i < m.nrows && j < m.ncols ensures Slot(m, i, j) < |d.data| {
          PackedBound(j, i, d.ncols, d.nrows);
        }
      }
    }
    assert Disjoint(m) by {
      forall i: nat, j: nat, i': nat, j': nat | i < m.nrows && j < m.ncols && i' < m.nrows && j' < m.ncols &&
        Slot(m, i, j) == Slot(m, i', j')
        ensures i == i' && j == j'
      {
        PackedUnique(j, i, j', i', d.nrows);
      }
    }
    m
  }

  /** Entry (i, j) of an owned matrix, `m[(i, j)]`. */
  function At<T>(d: DMatrix<T>, i: nat, j: nat): T
    requires d.Valid() && i < d.nrows && j < d.ncols
  {
    PackedBound(j, i, d.ncols, d.nrows);
    d.data[i + j * d.nrows]
  }

  /** Indexing an owned matrix reads the entry its storage, seen as a view, holds there. */
  lemma AtStorage<T>(d: DMatrix<T>, i: nat, j: nat)
    requires d.Valid() && i < d.nrows && j < d.ncols
    ensures ViewFits(Storage(d), |d.data|) && At(d, i, j) == Entry(d.data, Storage(d), i, j)
  {
  }

  /** `Matrix4::new(m00, m01, ..., m33)`: the arguments come row by row, the storage is column by column. */
  function New4<T>(args: seq<T>): (d: DMatrix<T>)
    requires |args| == 16
    ensures d.Valid() && d.nrows == 4 && d.ncols == 4
    ensures forall i: nat, j: nat :: i < 4 && j < 4 ==> At(d, i, j) == args[4 * i + j]
  {
    DMatrix(4, 4, seq(16, p requires 0 <= p < 16 => args[4 * (p % 4) + p / 4]))
  }

  /** An owned, dynamically sized column vector (`DVector::from_vec`, or `Vector4::new`). */
  datatype DVector<T> = DVector(data: seq<T>)

  function VectorStorage<T>(v: DVector<T>): (m: MatrixView)
    ensures m.nrows == |v.data| && m.ncols == 1
    ensures ViewFits(m, |v.data|)
    ensures forall k: nat :: k < |v.data| ==> Slot(m, k, 0) == k
  {
    MatrixView(0, |v.data|, 1, 1, |v.data|)
  }
}
