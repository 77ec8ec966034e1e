/**
 * nalgebra matrices and vectors seen as ndarray arrays (src/tondarray/nalgebra_impl.rs).
 *
 * The view conversions rebuild an ndarray layout from the matrix's shape, strides and
 * start pointer without copying; the mutable ones differ only in that writes through the
 * view land in the matrix's buffer, modelled with `Fill` on the shared buffer. The owned
 * conversions hand nalgebra's storage vector to `from_shape_vec`.
 */
module NalgebraToNdarray {
  import opened Outcomes
  import opened Arith
  import opened Layouts
  import opened Nalgebra

  // ---------------------------------------------------------------------------
  // Borrowed vectors: ref_ndarray1, mut_ndarray1, to_ndarray1 on slice storage

  /**
   * `from_shape_ptr((nrows,).strides((rstride,)), ptr)`: element k of the array is
   * entry (k, 0) of the vector, in the same buffer slot.
   */
  function VectorToView(v: MatrixView): (r: Layout)
    requires v.ncols == 1
    ensures Rank(r, 1) && r.shape == [v.nrows] && r.strides == [v.rstride]
    ensures forall k: nat :: k < v.nrows ==> At1(r, k) == Slot(v, k, 0)
    ensures forall n: nat :: ViewFits(v, n) ==> FitsIn(r, n)
  {
    var r := Layout(v.offset, [v.nrows], [v.rstride]);
    assert forall n: nat :: ViewFits(v, n) ==> FitsIn(r, n) by {
      forall n: nat | ViewFits(v, n) ensures FitsIn(r, n) {
        Fits1(r, n);
        forall k: nat | k < v.nrows ensures 0 <= At1(r, k) < n {
          assert At1(r, k) == Slot(v, k, 0);
        }
      }
    }
    r
  }

  /** Reading the array view yields the vector's entries in order. */
  lemma VectorViewReads<T>(buf: seq<T>, v: MatrixView)
    requires v.ncols == 1 && ViewFits(v, |buf|)
    ensures var r := VectorToView(v);
      FitsIn(r, |buf|) &&
      |Iter1(buf, r)| == v.nrows &&
      forall k: nat :: k < v.nrows ==> Iter1(buf, r)[k] == Entry(buf, v, k, 0)
  {
    var r := VectorToView(v);
    forall k: nat | k < v.nrows ensures Iter1(buf, r)[k] == Entry(buf, v, k, 0) {
      Fits1(r, |buf|);
      assert At1(r, k) == Slot(v, k, 0);
    }
  }

  /**
   * `fill(x)` through the mutable view writes `x` into exactly the vector's slots:
   * every entry of the vector becomes `x`, and no other slot of the buffer changes.
   */
  lemma VectorViewFill<T>(buf: seq<T>, v: MatrixView, x: T)
    requires v.ncols == 1 && ViewFits(v, |buf|)
    ensures var after := Fill(buf, VectorToView(v), x);
      |after| == |buf| &&
      forall p :: 0 <= p < |buf| ==>
        after[p] == if exists k: nat :: k < v.nrows && Slot(v, k, 0) == p then x else buf[p]
  {
    var r := VectorToView(v);
    forall p | 0 <= p < |buf|
      ensures Fill(buf, r, x)[p] == if exists k: nat :: k < v.nrows && Slot(v, k, 0) == p then x else buf[p]
    {
      Touches1(r, p);
      if exists k: nat :: k < v.nrows && Slot(v, k, 0) == p {
        var k: nat :| k < v.nrows && Slot(v, k, 0) == p;
        assert At1(r, k) == p;
      }
    }
  }

  /**
   * An owned vector seen through `ref_ndarray1()`, and through `rows(0, count)`: the array
   * reads the first `count` entries of the vector in order (all of them for the full view).
   */
  lemma OwnedVectorView<T>(v: DVector<T>, count: nat)
    requires count <= |v.data|
    ensures var r := VectorToView(VectorStorage(v));
      FitsIn(r, |v.data|) && Iter1(v.data, r) == v.data
    ensures var rows := VectorToView(RowsWithStep(VectorStorage(v), 0, count, 0));
      FitsIn(rows, |v.data|) && Iter1(v.data, rows) == v.data[..count]
  {
    var m := VectorStorage(v);
    var rows := RowsWithStep(m, 0, count, 0);
    VectorViewReads(v.data, m);
    VectorViewReads(v.data, rows);
    forall k: nat | k < count ensures Iter1(v.data, VectorToView(rows))[k] == v.data[k] {
      RowsWithStepSlot(m, 0, count, 0, k, 0);
      assert Slot(rows, k, 0) == Slot(m, k, 0) == k;
    }
  }

  /** `Vector4::new(..).ref_ndarray1()` reads 1, 2, 3, 4 with dim 4. */
  lemma Vector4ViewExample()
    ensures var v := DVector([1, 2, 3, 4]);
      var r := VectorToView(VectorStorage(v));
      FitsIn(r, 4) && r.shape == [4] && Iter1(v.data, r) == [1, 2, 3, 4]
  {
    OwnedVectorView(DVector([1, 2, 3, 4]), 0);
  }

  /** `Vector4::new(..).mut_ndarray1().fill(0)` zeroes the whole vector. */
  lemma Vector4FillExample()
    ensures var v := DVector([1, 2, 3, 4]);
      Fill(v.data, VectorToView(VectorStorage(v)), 0) == [0, 0, 0, 0]
  {
    var v := DVector([1, 2, 3, 4]);
    var L := VectorToView(VectorStorage(v));
    assert L == Layout(0, [4], [1]);
    forall p | 0 <= p < 4 ensures Touches(L, p) {
      Touches1(L, p);
      assert At1(L, p) == p;
    }
  }

  /**
   * `rows_generic_with_step_mut::<U2>(0, U2, 1).to_ndarray1()` on a 4-vector: two rows taken
   * every second row, so the array view has length 2 and stride 2.
   */
  lemma StridedRowsView(v: DVector<int>)
    requires |v.data| == 4
    ensures VectorToView(RowsWithStep(VectorStorage(v), 0, 2, 1)) == Layout(0, [2], [2])
  {
  }

  /** Its `fill(0)` zeroes slots 0 and 2 only: 1, 2, 3, 4 becomes 0, 2, 0, 4. */
  lemma StridedRowsFillExample(v: DVector<int>)
    requires v.data == [1, 2, 3, 4]
    ensures Fill(v.data, VectorToView(RowsWithStep(VectorStorage(v), 0, 2, 1)), 0) == [0, 2, 0, 4]
  {
    assert VectorStorage(v) == MatrixView(0, 4, 1, 1, 4);
    StridedFill();
  }

  /** The same fill, stated over the literal vector and the strided selection. */
  lemma StridedFill()
    ensures Fill([1, 2, 3, 4], VectorToView(RowsWithStep(MatrixView(0, 4, 1, 1, 4), 0, 2, 1)), 0) == [0, 2, 0, 4]
  {
    var L := VectorToView(RowsWithStep(MatrixView(0, 4, 1, 1, 4), 0, 2, 1));
    assert L == Layout(0, [2], [2]);
    FillStride2(L);
  }

  /** Filling a length-2, stride-2 view of four slots writes slots 0 and 2 only. */
  lemma FillStride2(L: Layout)
    requires L == Layout(0, [2], [2])
    ensures Fill([1, 2, 3, 4], L, 0) == [0, 2, 0, 4]
  {
    assert At1(L, 0) == 0 && At1(L, 1) == 2;
    forall p | 0 <= p < 4 ensures Touches(L, p) <==> p == 0 || p == 2 {
      Touches1(L, p);
    }
  }

  // ---------------------------------------------------------------------------
  // Borrowed matrices: ref_ndarray2, mut_ndarray2, to_ndarray2 on slice storage

  /**
   * `from_shape_ptr(shape().strides(strides()), ptr)`: element [i, j] of the array is
   * entry (i, j) of the matrix, in the same buffer slot.
   */
  function MatrixToView(m: MatrixView): (r: Layout)
    ensures Rank(r, 2) && r.shape == [m.nrows, m.ncols] && r.strides == [m.rstride, m.cstride]
    ensures forall i: nat, j: nat :: At2(r, i, j) == Slot(m, i, j)
    ensures forall n: nat :: ViewFits(m, n) ==> FitsIn(r, n)
  {
    var r := Layout(m.offset, [m.nrows, m.ncols], [m.rstride, m.cstride]);
    assert forall n: nat :: ViewFits(m, n) ==> FitsIn(r, n) by {
      forall n: nat | ViewFits(m, n) ensures FitsIn(r, n) {
        Fits2(r, n);
        forall i: nat, j: nat | i < m.nrows && j < m.ncols ensures 0 <= At2(r, i, j) < n {
          assert At2(r, i, j) == Slot(m, i, j);
        }
      }
    }
    r
  }

  /** Row i of the array view (`s![i, ..]`) reads row i of the matrix. */
  lemma MatrixViewRow<T>(buf: seq<T>, m: MatrixView, i: nat)
    requires ViewFits(m, |buf|) && i < m.nrows
    ensures var row := Row(MatrixToView(m), i);
      FitsIn(row, |buf|) && |Iter1(buf, row)| == m.ncols &&
      forall j: nat :: j < m.ncols ==> Iter1(buf, row)[j] == Entry(buf, m, i, j)
  {
    var row := Row(MatrixToView(m), i);
    forall j: nat | j < m.ncols ensures Iter1(buf, row)[j] == Entry(buf, m, i, j) {
      Fits1(row, |buf|);
      assert At1(row, j) == At2(MatrixToView(m), i, j) == Slot(m, i, j);
    }
  }

  /** The 4 x 4 example: the view has dim (4, 4) and its row 1 is 5, 6, 7, 8. */
  lemma Matrix4ViewExample()
    ensures var d := New4([1, 2, 3, 4, 5, 6, 7, 8, 11, 12, 13, 14, 15, 16, 17, 18]);
      var r := MatrixToView(Storage(d));
      r.shape == [4, 4] && FitsIn(Row(r, 1), |d.data|) && Iter1(d.data, Row(r, 1)) == [5, 6, 7, 8]
  {
    var args := [1, 2, 3, 4, 5, 6, 7, 8, 11, 12, 13, 14, 15, 16, 17, 18];
    var d := New4(args);
    MatrixViewRow(d.data, Storage(d), 1);
    var row := Iter1(d.data, Row(MatrixToView(Storage(d)), 1));
    forall j: nat | j < 4 ensures row[j] == args[4 + j] {
      assert Entry(d.data, Storage(d), 1, j) == At(d, 1, j);
    }
  }

  /**
   * `fill(x)` on row i of the mutable view: when the matrix's entries occupy distinct
   * slots, exactly row i of the matrix becomes `x` and every other entry is unchanged.
   */
  lemma MatrixViewFillRow<T>(buf: seq<T>, m: MatrixView, i: nat, x: T)
    requires ViewFits(m, |buf|) && Disjoint(m) && i < m.nrows
    ensures var after := Fill(buf, Row(MatrixToView(m), i), x);
      |after| == |buf| && ViewFits(m, |after|) &&
      forall i': nat, j: nat :: i' < m.nrows && j < m.ncols ==>
        Entry(after, m, i', j) == if i' == i then x else Entry(buf, m, i', j)
  {
    var row := Row(MatrixToView(m), i);
    var after := Fill(buf, row, x);
    forall i': nat, j: nat | i' < m.nrows && j < m.ncols
      ensures Entry(after, m, i', j) == if i' == i then x else Entry(buf, m, i', j)
    {
      var p := Slot(m, i', j);
      Touches1(row, p);
      if i' == i {
        assert At1(row, j) == At2(MatrixToView(m), i, j) == p;
      } else {
        forall k: nat | k < row.shape[0] ensures At1(row, k) != p {
          assert At1(row, k) == At2(MatrixToView(m), i, k) == Slot(m, i, k);
        }
      }
    }
  }

  /** `mut_ndarray2().slice_mut(s![1, ..]).fill(0)` on the 4 x 4 example: row 1 becomes zeros. */
  lemma Matrix4FillRowExample()
    ensures var d := New4([1, 2, 3, 4, 5, 6, 7, 8, 11, 12, 13, 14, 15, 16, 17, 18]);
      var after := DMatrix(4, 4, Fill(d.data, Row(MatrixToView(Storage(d)), 1), 0));
      after.Valid() &&
      forall j: nat :: j < 4 ==> At(after, 0, j) == At(d, 0, j) && At(after, 1, j) == 0
  {
    var d := New4([1, 2, 3, 4, 5, 6, 7, 8, 11, 12, 13, 14, 15, 16, 17, 18]);
    MatrixViewFillRow(d.data, Storage(d), 1, 0);
    var after := DMatrix(4, 4, Fill(d.data, Row(MatrixToView(Storage(d)), 1), 0));
    forall j: nat | j < 4 ensures At(after, 0, j) == At(d, 0, j) && At(after, 1, j) == 0 {
      assert At(after, 0, j) == Entry(after.data, Storage(d), 0, j);
      assert At(after, 1, j) == Entry(after.data, Storage(d), 1, j);
      assert At(d, 0, j) == Entry(d.data, Storage(d), 0, j);
    }
  }

  /** `row(i).to_ndarray2()`: a (1, ncols) array whose element [0, j] is entry (i, j). */
  lemma RowSliceView<T>(buf: seq<T>, m: MatrixView, i: nat)
    requires ViewFits(m, |buf|) && i < m.nrows
    ensures var r := MatrixToView(RowsWithStep(m, i, 1, 0));
      r.shape == [1, m.ncols] && FitsIn(r, |buf|) &&
      forall j: nat :: j < m.ncols ==> Get2(buf, r, 0, j) == Entry(buf, m, i, j)
  {
    var rows := RowsWithStep(m, i, 1, 0);
    var r := MatrixToView(rows);
    forall j: nat | j < m.ncols ensures Get2(buf, r, 0, j) == Entry(buf, m, i, j) {
      RowsWithStepSlot(m, i, 1, 0, 0, j);
      assert At2(r, 0, j) == Slot(rows, 0, j) == Slot(m, i, j);
    }
  }

  /** Entry (i', j) after `row_mut(i).to_ndarray2().fill(x)`: `x` in row i, unchanged elsewhere. */
  lemma RowSliceFillEntry<T>(buf: seq<T>, m: MatrixView, i: nat, x: T, i': nat, j: nat)
    requires ViewFits(m, |buf|) && Disjoint(m) && i < m.nrows && i' < m.nrows && j < m.ncols
    ensures var after := Fill(buf, MatrixToView(RowsWithStep(m, i, 1, 0)), x);
      |after| == |buf| && Entry(after, m, i', j) == if i' == i then x else Entry(buf, m, i', j)
  {
    var rows := RowsWithStep(m, i, 1, 0);
    var r := MatrixToView(rows);
    var p := Slot(m, i', j);
    Touches2(r, p);
    if i' == i {
      RowsWithStepSlot(m, i, 1, 0, 0, j);
      assert At2(r, 0, j) == Slot(rows, 0, j) == p;
    } else {
      forall a: nat, b: nat | a < 1 && b < m.ncols ensures At2(r, a, b) != p {
        RowsWithStepSlot(m, i, 1, 0, 0, b);
        assert At2(r, a, b) == Slot(rows, 0, b) == Slot(m, i, b);
      }
    }
  }

  /**
   * `row_mut(i).to_ndarray2().fill(x)`: when the matrix's entries occupy distinct slots,
   * exactly row i of the matrix becomes `x`.
   */
  lemma RowSliceFill<T>(buf: seq<T>, m: MatrixView, i: nat, x: T)
    requires ViewFits(m, |buf|) && Disjoint(m) && i < m.nrows
    ensures var after := Fill(buf, MatrixToView(RowsWithStep(m, i, 1, 0)), x);
      |after| == |buf| && ViewFits(m, |after|) &&
      forall i': nat, j: nat :: i' < m.nrows && j < m.ncols ==>
        Entry(after, m, i', j) == if i' == i then x else Entry(buf, m, i', j)
  {
    var after := Fill(buf, MatrixToView(RowsWithStep(m, i, 1, 0)), x);
    forall i': nat, j: nat | i' < m.nrows && j < m.ncols
      ensures Entry(after, m, i', j) == if i' == i then x else Entry(buf, m, i', j)
    {
      RowSliceFillEntry(buf, m, i, x, i', j);
    }
  }

  /** `row(i).to_ndarray2()` on an owned matrix iterates row i: entries (i, 0), ..., (i, ncols - 1). */
  lemma OwnedRowView<T>(d: DMatrix<T>, i: nat)
    requires d.Valid() && i < d.nrows
    ensures var r := MatrixToView(RowsWithStep(Storage(d), i, 1, 0));
      r.shape == [1, d.ncols] && FitsIn(r, |d.data|) && |Iter2(d.data, r)| == d.ncols &&
      forall j: nat :: j < d.ncols ==> Iter2(d.data, r)[j] == At(d, i, j)
  {
    var r := MatrixToView(RowsWithStep(Storage(d), i, 1, 0));
    RowSliceView(d.data, Storage(d), i);
    forall j: nat | j < d.ncols ensures Iter2(d.data, r)[j] == At(d, i, j) {
      Iter2At(d.data, r, 0, j);
    }
  }

  /** `m.row(1).to_ndarray2()` on the 4 x 4 example: dim (1, 4), elements 5, 6, 7, 8. */
  lemma RowToNdarray2Example(args: seq<int>)
    requires args == [1, 2, 3, 4, 5, 6, 7, 8, 11, 12, 13, 14, 15, 16, 17, 18]
    ensures var d := New4(args);
      var r := MatrixToView(RowsWithStep(Storage(d), 1, 1, 0));
      r.shape == [1, 4] && FitsIn(r, |d.data|) && Iter2(d.data, r) == [5, 6, 7, 8]
  {
    OwnedRowView(New4(args), 1);
  }

  /** `m.row_mut(1).to_ndarray2().fill(0)` on the 4 x 4 example: row 1 becomes zeros. */
  lemma RowMutFillExample()
    ensures var d := New4([1, 2, 3, 4, 5, 6, 7, 8, 11, 12, 13, 14, 15, 16, 17, 18]);
      var after := DMatrix(4, 4, Fill(d.data, MatrixToView(RowsWithStep(Storage(d), 1, 1, 0)), 0));
      after.Valid() && forall j: nat :: j < 4 ==> At(after, 1, j) == 0 && At(after, 2, j) == At(d, 2, j)
  {
    var d := New4([1, 2, 3, 4, 5, 6, 7, 8, 11, 12, 13, 14, 15, 16, 17, 18]);
    var after := DMatrix(4, 4, Fill(d.data, MatrixToView(RowsWithStep(Storage(d), 1, 1, 0)), 0));
    forall j: nat | j < 4 ensures At(after, 1, j) == 0 && At(after, 2, j) == At(d, 2, j) {
      RowSliceFillEntry(d.data, Storage(d), 1, 0, 1, j);
      RowSliceFillEntry(d.data, Storage(d), 1, 0, 2, j);
      assert At(after, 1, j) == Entry(after.data, Storage(d), 1, j);
      assert At(after, 2, j) == Entry(after.data, Storage(d), 2, j);
      assert At(d, 2, j) == Entry(d.data, Storage(d), 2, j);
    }
  }

  // ---------------------------------------------------------------------------
  // Owned conversions

  /** Owned `DVector` -> `Array1`: `from_shape_vec((n,), data).unwrap()`, which cannot fail. */
  function DVectorToArray1<T>(v: DVector<T>): (r: Result<Array<T>>)
    ensures r.Ok? && r.value.Valid() && Rank(r.value.layout, 1) && r.value.layout.shape == [|v.data|]
    ensures r.value.data == v.data && Iter1(r.value.data, r.value.layout) == v.data
  {
    Shape1(|v.data|);
    match FromShapeVec([|v.data|], |v.data|)
    case Some(L) =>
      assert Iter1(v.data, L) == v.data by {
        forall k: nat | k < |v.data| ensures Iter1(v.data, L)[k] == v.data[k] {
          Fits1(L, |v.data|);
          assert At1(L, k) == k;
        }
      }
      Ok(Array(L, v.data))
    case None => Err(UnwrapFailed)
  }

  /**
   * Owned `DMatrix` -> `Array2`: `from_shape_vec(shape(), data).unwrap()`. The column-major
   * storage is taken over unchanged and read as a row-major (nrows, ncols) array; the unwrap
   * cannot fail because the storage holds exactly nrows * ncols values.
   */
  function DMatrixToArray2<T>(d: DMatrix<T>): (r: Result<Array<T>>)
    requires d.Valid()
    ensures r.Ok? && r.value.Valid() && r.value.data == d.data
    ensures r.value.layout == Layout(0, [d.nrows, d.ncols], [d.ncols, 1])
  {
    Shape2(d.nrows, d.ncols);
    match FromShapeVec([d.nrows, d.ncols], |d.data|)
    case Some(L) => Ok(Array(L, d.data))
    case None => Err(UnwrapFailed)
  }

  /**
   * Element [i, j] of the converted array is storage slot i * ncols + j: the C-order
   * strides read nalgebra's column-major vector row by row.
   */
  lemma DMatrixToArray2Slot<T>(d: DMatrix<T>, i: nat, j: nat)
    requires d.Valid() && i < d.nrows && j < d.ncols
    ensures i * d.ncols + j < |d.data|
    ensures var a := DMatrixToArray2(d).value; Get2(a.data, a.layout, i, j) == d.data[i * d.ncols + j]
  {
    var a := DMatrixToArray2(d).value;
    GetRowMajor(a.data, a.layout, i, j);
  }

  /**
   * Iterating the converted array in logical (row-major) order yields the storage exactly
   * as nalgebra laid it out, column by column.
   */
  lemma DMatrixToArray2Reads<T>(d: DMatrix<T>)
    requires d.Valid()
    ensures var a := DMatrixToArray2(d).value;
      Iter2(a.data, a.layout) == d.data
  {
    var a := DMatrixToArray2(d).value;
    forall p: nat | p < |d.data| ensures Iter2(a.data, a.layout)[p] == d.data[p] {
      Unpack(p, d.nrows, d.ncols);
      Iter2At(a.data, a.layout, p / d.ncols, p % d.ncols);
      GetRowMajor(a.data, a.layout, p / d.ncols, p % d.ncols);
    }
  }

  /**
   * What the owned conversion reads, in the matrix's own terms: for a square matrix,
   * element [i, j] of the array is entry (j, i), so the array is the transpose.
   */
  lemma DMatrixToArray2Transposes<T>(d: DMatrix<T>)
    requires d.Valid() && d.nrows == d.ncols
    ensures var a := DMatrixToArray2(d).value;
      forall i: nat, j: nat :: i < d.nrows && j < d.ncols ==>
        Get2(a.data, a.layout, i, j) == At(d, j, i)
  {
    var a := DMatrixToArray2(d).value;
    forall i: nat, j: nat | i < d.nrows && j < d.ncols
      ensures Get2(a.data, a.layout, i, j) == At(d, j, i)
    {
      GetRowMajor(a.data, a.layout, i, j);
    }
  }

  /**
   * The documented 4 x 4 example, `from_vec(4, 4, ..)` then `to_ndarray2()`: row 0 of the
   * array is the first four stored values and column 0 is every fourth one.
   */
  lemma DMatrixToArray2RowColumn<T>(d: DMatrix<T>)
    requires d.Valid() && d.nrows == 4 && d.ncols == 4
    ensures var a := DMatrixToArray2(d).value;
      FitsIn(Row(a.layout, 0), |a.data|) && Iter1(a.data, Row(a.layout, 0)) == d.data[..4] &&
      FitsIn(Column(a.layout, 0), |a.data|) &&
      Iter1(a.data, Column(a.layout, 0)) == [d.data[0], d.data[4], d.data[8], d.data[12]]
  {
    var a := DMatrixToArray2(d).value;
    var row := Iter1(a.data, Row(a.layout, 0));
    var col := Iter1(a.data, Column(a.layout, 0));
    forall k: nat | k < 4 ensures row[k] == d.data[k] && col[k] == d.data[4 * k] {
      assert At1(Row(a.layout, 0), k) == At2(a.layout, 0, k);
      assert At1(Column(a.layout, 0), k) == At2(a.layout, k, 0);
    }
  }

  /** The documented `DVector::from_vec(..).to_ndarray1()`: dim 4, iterating 1, 2, 3, 4. */
  lemma DVectorToArray1Example()
    ensures var a := DVectorToArray1(DVector([1, 2, 3, 4])).value;
      a.layout.shape == [4] && Iter1(a.data, a.layout) == [1, 2, 3, 4]
  {
  }

  /** With the values 1, 2, ...: entry (0, 1) of the matrix is 5, element [0, 1] of the array is 2. */
  lemma DMatrixToArray2Example()
    ensures var d := DMatrix(4, 4, [1, 2, 3, 4, 5, 6, 7, 8, 11, 12, 13, 14, 15, 16, 17, 18]);
      var a := DMatrixToArray2(d).value;
      FitsIn(Row(a.layout, 0), |a.data|) && Iter1(a.data, Row(a.layout, 0)) == [1, 2, 3, 4] &&
      FitsIn(Column(a.layout, 0), |a.data|) && Iter1(a.data, Column(a.layout, 0)) == [1, 5, 11, 15] &&
      At(d, 0, 1) == 5 && Get2(a.data, a.layout, 0, 1) == 2
  {
    var d := DMatrix(4, 4, [1, 2, 3, 4, 5, 6, 7, 8, 11, 12, 13, 14, 15, 16, 17, 18]);
    DMatrixToArray2RowColumn(d);
    var a := DMatrixToArray2(d).value;
    assert At2(a.layout, 0, 1) == 1;
    assert d.data[..4] == [1, 2, 3, 4];
  }

  /**
   * The evidently intended owned conversion, `from_shape_vec(shape().f(), data)`: the
   * storage read column by column ("Fortran order", strides (1, nrows)), so that element
   * [i, j] is entry (i, j) for every shape. ndarray accepts a Fortran-order shape when the
   * vector holds exactly nrows * ncols values, which the storage always does.
   */
  function DMatrixToArray2ColumnMajor<T>(d: DMatrix<T>): (r: Result<Array<T>>)
    requires d.Valid()
    ensures r.Ok? && r.value.Valid() && Rank(r.value.layout, 2)
    ensures r.value.layout.shape == [d.nrows, d.ncols] && r.value.data == d.data
    ensures forall i: nat, j: nat :: i < d.nrows && j < d.ncols ==>
      Get2(r.value.data, r.value.layout, i, j) == At(d, i, j)
  {
    ColumnMajorLayout(d);
    Ok(Array(Layout(0, [d.nrows, d.ncols], [1, d.nrows]), d.data))
  }

  /** The column-major layout of an owned matrix fits its vector and reads entry (i, j) at [i, j]. */
  lemma ColumnMajorLayout<T>(d: DMatrix<T>)
    requires d.Valid()
    ensures var L := Layout(0, [d.nrows, d.ncols], [1, d.nrows]);
      FitsIn(L, |d.data|) &&
      forall i: nat, j: nat :: i < d.nrows && j < d.ncols ==> Get2(d.data, L, i, j) == At(d, i, j)
  {
    var L := Layout(0, [d.nrows, d.ncols], [1, d.nrows]);
    assert FitsIn(L, |d.data|) by {
      Fits2(L, |d.data|);
      forall i: nat, j: nat | i < d.nrows && j < d.ncols ensures 0 <= At2(L, i, j) < |d.data| {
        PackedBound(j, i, d.ncols, d.nrows);
      }
    }
    forall i: nat, j: nat | i < d.nrows && j < d.ncols ensures Get2(d.data, L, i, j) == At(d, i, j) {
      assert At2(L, i, j) == i + j * d.nrows;
    }
  }
}
