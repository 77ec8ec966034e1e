/**
 * ndarray arrays seen as nalgebra matrices and vectors (src/tonalgebra/ndarray_impl.rs).
 *
 * The view conversions hand nalgebra the array's start slot, shape and strides; ndarray
 * strides are signed and nalgebra's are not, so a negative stride panics. The owned
 * conversions copy the elements out through an iterator.
 */
module NdarrayToNalgebra {
  import opened Outcomes
  import opened Arith
  import opened Layouts
  import opened Nalgebra
  import opened NalgebraToNdarray

  // ---------------------------------------------------------------------------
  // One-dimensional views: ArrayView1 and ArrayViewMut1

  /**
   * `into_nalgebra` on a one-dimensional view (shared or mutable): the stride is converted
   * to `usize`, panicking when negative, and the vector view is built with shape (len, 1)
   * and strides (1, stride), so the ndarray stride lands in the column stride.
   */
  function View1IntoNalgebra(L: Layout): (r: Result<MatrixView>)
    requires Rank(L, 1)
    ensures r.Err? <==> L.strides[0] < 0
    ensures r.Err? ==> r.panic == NegativeStride
    ensures r.Ok? ==> r.value.nrows == L.shape[0] && r.value.ncols == 1
    ensures r.Ok? ==> r.value.rstride == 1 && r.value.cstride == L.strides[0]
    ensures r.Ok? ==> forall k: nat :: Slot(r.value, k, 0) == L.offset + k
  {
    if L.strides[0] < 0 then Err(NegativeStride)
    else Ok(MatrixView(L.offset, L.shape[0], 1, 1, L.strides[0]))
  }

  /**
   * The vector view reads the same slots as the array exactly when the array is
   * contiguous or has at most one element: any other stride is silently replaced by 1.
   */
  lemma View1IntoNalgebraAgrees(L: Layout)
    requires Rank(L, 1) && L.strides[0] >= 0
    ensures var m := View1IntoNalgebra(L).value;
      (forall k: nat :: k < L.shape[0] ==> Slot(m, k, 0) == At1(L, k)) <==>
      (L.strides[0] == 1 || L.shape[0] <= 1)
  {
    var m := View1IntoNalgebra(L).value;
    if L.shape[0] > 1 && L.strides[0] != 1 {
      assert Slot(m, 1, 0) != At1(L, 1);
    }
  }

  /**
   * A vector view over a buffer stays inside it when the stride is positive, but with a
   * zero stride (a broadcast view) the slots offset, offset + 1, ... may run past the end.
   */
  lemma View1IntoNalgebraFits(L: Layout, n: nat)
    requires Rank(L, 1) && L.strides[0] >= 1 && FitsIn(L, n)
    ensures ViewFits(View1IntoNalgebra(L).value, n)
  {
    var m := View1IntoNalgebra(L).value;
    Fits1(L, n);
    forall i: nat, j: nat | i < m.nrows && j < m.ncols ensures Slot(m, i, j) < n {
      MulMono(1, L.strides[0], i);
      assert 0 <= At1(L, i) < n;
    }
  }

  /** `arr.slice(s![..;2])` of 1, 2, 3, 4 is the array 1, 3; its vector view reads 1, 2. */
  lemma View1IntoNalgebraStrideCounterexample(buf: seq<int>, L: Layout)
    requires |buf| == 4 && buf[0] == 1 && buf[1] == 2 && buf[2] == 3 && buf[3] == 4
    requires Rank(L, 1) && L.offset == 0 && L.shape[0] == 2 && L.strides[0] == 2
    ensures var m := View1IntoNalgebra(L).value;
      FitsIn(L, 4) && ViewFits(m, 4) &&
      Get1(buf, L, 0) == 1 && Get1(buf, L, 1) == 3 &&
      Entry(buf, m, 0, 0) == 1 && Entry(buf, m, 1, 0) == 2
  {
    assert At1(L, 0) == 0 && At1(L, 1) == 2;
    Fits1(L, 4);
    View1IntoNalgebraFits(L, 4);
  }

  /**
   * A broadcast view of one element repeated three times (stride 0) yields a vector
   * view reaching two slots past the end of the one-slot buffer.
   */
  lemma View1IntoNalgebraBroadcastCounterexample(B: Layout)
    requires B == Layout(0, [3], [0])
    ensures FitsIn(B, 1) && !ViewFits(View1IntoNalgebra(B).value, 1)
  {
    Fits1(B, 1);
    assert Slot(View1IntoNalgebra(B).value, 2, 0) == 2;
  }

  /**
   * The evidently intended conversion: the ndarray stride as the row stride of the vector
   * view, so that entry (k, 0) is element k for every non-negative stride.
   */
  function View1IntoNalgebraStrided(L: Layout): (r: Result<MatrixView>)
    requires Rank(L, 1)
    ensures r.Err? <==> L.strides[0] < 0
    ensures r.Err? ==> r.panic == NegativeStride
    ensures r.Ok? ==> r.value.nrows == L.shape[0] && r.value.ncols == 1
    ensures r.Ok? ==> forall k: nat :: Slot(r.value, k, 0) == At1(L, k)
    ensures r.Ok? ==> forall n: nat :: FitsIn(L, n) ==> ViewFits(r.value, n)
  {
    if L.strides[0] < 0 then Err(NegativeStride)
    else
      var m := MatrixView(L.offset, L.shape[0], 1, L.strides[0], 1);
      assert forall n: nat :: FitsIn(L, n) ==> ViewFits(m, n) by {
        forall n: nat, i: nat, j: nat | FitsIn(L, n) && i < m.nrows && j < m.ncols
          ensures Slot(m, i, j) < n
        {
          Fits1(L, n);
          assert Slot(m, i, j) == At1(L, i);
        }
      }
      Ok(m)
  }

  /** Converting a vector view to ndarray and back gives the same view, for both versions. */
  lemma View1RoundTrip(v: MatrixView)
    requires v.ncols == 1
    ensures View1IntoNalgebraStrided(VectorToView(v)) == Ok(MatrixView(v.offset, v.nrows, 1, v.rstride, 1))
    ensures var r := View1IntoNalgebra(VectorToView(v));
      r.Ok? && forall k: nat :: k < v.nrows ==> (Slot(r.value, k, 0) == Slot(v, k, 0) <==> v.rstride == 1 || k == 0)
  {
  }

  /** From the ndarray side: the corrected conversion followed by `to_ndarray1` is the identity. */
  lemma Array1ViewRoundTrip(L: Layout)
    requires Rank(L, 1) && L.strides[0] >= 0
    ensures VectorToView(View1IntoNalgebraStrided(L).value) == L
    ensures L.strides[0] == 1 ==> VectorToView(View1IntoNalgebra(L).value) == L
  {
  }

  /** `array![1, 2, 3, 4].view().into_nalgebra()` iterates 1, 2, 3, 4 with shape (4, 1). */
  lemma View1Example(buf: seq<int>)
    requires buf == [1, 2, 3, 4]
    ensures var m := View1IntoNalgebra(Layout(0, [4], [1])).value;
      m.nrows == 4 && m.ncols == 1 && ViewFits(m, |buf|) &&
      forall k: nat :: k < 4 ==> Entry(buf, m, k, 0) == buf[k]
  {
  }

  // ---------------------------------------------------------------------------
  // Owned one-dimensional arrays: Array1

  /** `from_iterator_generic(len, 1, iter().cloned())`: the elements in logical order. */
  function Array1IntoNalgebra<T>(a: Array<T>): (r: DVector<T>)
    requires a.Valid() && Rank(a.layout, 1)
    ensures |r.data| == a.layout.shape[0]
    ensures forall k: nat :: k < |r.data| ==> r.data[k] == Get1(a.data, a.layout, k)
  {
    DVector(Iter1(a.data, a.layout))
  }

  /** The documented `array![1, 2, 3, 4].into_nalgebra()`: shape (4, 1), iterating 1, 2, 3, 4. */
  lemma Array1IntoNalgebraExample()
    ensures var a := Array(Layout(0, [4], [1]), [1, 2, 3, 4]);
      a.Valid() && Rank(a.layout, 1) &&
      var m := Array1IntoNalgebra(a);
      m.data == [1, 2, 3, 4] && VectorStorage(m).nrows == 4 && VectorStorage(m).ncols == 1
  {
    Fits1(Layout(0, [4], [1]), 4);
  }

  /** An owned vector converted to ndarray and back is unchanged. */
  lemma VectorRoundTrip<T>(v: DVector<T>)
    ensures Array1IntoNalgebra(DVectorToArray1(v).value) == v
  {
  }

  /** An owned array converted to nalgebra and back holds the same elements in the same order. */
  lemma Array1RoundTrip<T>(a: Array<T>)
    requires a.Valid() && Rank(a.layout, 1)
    ensures var b := DVectorToArray1(Array1IntoNalgebra(a)).value;
      b.layout.shape == a.layout.shape && Iter1(b.data, b.layout) == Iter1(a.data, a.layout)
  {
  }

  // ---------------------------------------------------------------------------
  // Two-dimensional views: ArrayView2 and ArrayViewMut2

  /**
   * `into_nalgebra` on a two-dimensional view (shared or mutable): the row stride is
   * checked first, then the column stride; both are handed to nalgebra unchanged.
   */
  function View2IntoNalgebra(L: Layout): (r: Result<MatrixView>)
    requires Rank(L, 2)
    ensures r == Err(NegativeRowStride) <==> L.strides[0] < 0
    ensures r == Err(NegativeColStride) <==> L.strides[0] >= 0 && L.strides[1] < 0
    ensures r.Ok? <==> L.strides[0] >= 0 && L.strides[1] >= 0
    ensures r.Ok? ==> r.value.nrows == L.shape[0] && r.value.ncols == L.shape[1]
    ensures r.Ok? ==> forall i: nat, j: nat :: Slot(r.value, i, j) == At2(L, i, j)
    ensures r.Ok? ==> forall n: nat :: FitsIn(L, n) ==> ViewFits(r.value, n)
  {
    if L.strides[0] < 0 then Err(NegativeRowStride)
    else if L.strides[1] < 0 then Err(NegativeColStride)
    else
      var m := MatrixView(L.offset, L.shape[0], L.shape[1], L.strides[0], L.strides[1]);
      assert forall n: nat :: FitsIn(L, n) ==> ViewFits(m, n) by {
        forall n: nat, i: nat, j: nat | FitsIn(L, n) && i < m.nrows && j < m.ncols
          ensures Slot(m, i, j) < n
        {
          Fits2(L, n);
          assert Slot(m, i, j) == At2(L, i, j);
        }
      }
      Ok(m)
  }

  /** Matrix view to ndarray view and back is the identity, in both directions. */
  lemma View2RoundTrip(m: MatrixView, L: Layout)
    requires Rank(L, 2) && L.strides[0] >= 0 && L.strides[1] >= 0
    ensures View2IntoNalgebra(MatrixToView(m)) == Ok(m)
    ensures MatrixToView(View2IntoNalgebra(L).value) == L
  {
  }

  /**
   * Converting the transposed view (`t()` or `reversed_axes()`) gives the transposed
   * matrix: column j of the result is row j of the array.
   */
  lemma View2Transposed<T>(buf: seq<T>, L: Layout, j: nat)
    requires Rank(L, 2) && L.strides[0] >= 0 && L.strides[1] >= 0 && FitsIn(L, |buf|)
    requires j < L.shape[0]
    ensures var m := View2IntoNalgebra(Transposed(L)).value;
      m.nrows == L.shape[1] && m.ncols == L.shape[0] && ViewFits(m, |buf|) &&
      forall i: nat :: i < L.shape[1] ==> Entry(buf, m, i, j) == Get2(buf, L, j, i)
  {
    var m := View2IntoNalgebra(Transposed(L)).value;
    forall i: nat | i < L.shape[1] ensures Entry(buf, m, i, j) == Get2(buf, L, j, i) {
      assert Slot(m, i, j) == At2(Transposed(L), i, j) == At2(L, j, i);
    }
  }

  /**
   * The 4 x 4 array of the documentation, row-major: `view().into_nalgebra()` has shape
   * (4, 4) and row 1 is 5, 6, 7, 8; `t().into_nalgebra()` has column 1 equal to 5, 6, 7, 8.
   */
  lemma View2Example(buf: seq<int>, L: Layout)
    requires buf == [1, 2, 3, 4, 5, 6, 7, 8, 11, 12, 13, 14, 15, 16, 17, 18]
    requires L == Layout(0, [4, 4], [4, 1])
    ensures var m := View2IntoNalgebra(L).value;
      var t := View2IntoNalgebra(Transposed(L)).value;
      m.nrows == 4 && m.ncols == 4 && ViewFits(m, 16) && ViewFits(t, 16) &&
      forall k: nat :: k < 4 ==> Entry(buf, m, 1, k) == buf[4 + k] && Entry(buf, t, k, 1) == buf[4 + k]
  {
    Fits2(L, 16);
    assert FitsIn(L, 16) by {
      forall i: nat, j: nat | i < 4 && j < 4 ensures 0 <= At2(L, i, j) < 16 {
        PackedBound(i, j, 4, 4);
      }
    }
    View2Transposed(buf, L, 1);
  }

  /**
   * The single-row test: a (1, 4) view converts to a (1, 4) matrix whose row 0 is the
   * array's row, and its reversed axes to a (4, 1) matrix whose column 0 is that row.
   */
  lemma SingleRowExample(buf: seq<int>, L: Layout)
    requires buf == [1, 2, 3, 4] && L == Layout(0, [1, 4], [4, 1])
    ensures var m := View2IntoNalgebra(L).value;
      var t := View2IntoNalgebra(Transposed(L)).value;
      m.nrows == 1 && m.ncols == 4 && t.nrows == 4 && t.ncols == 1 &&
      ViewFits(m, 4) && ViewFits(t, 4) &&
      forall k: nat :: k < 4 ==> Entry(buf, m, 0, k) == buf[k] && Entry(buf, t, k, 0) == buf[k]
  {
    Fits2(L, 4);
    View2Transposed(buf, L, 0);
  }

  // ---------------------------------------------------------------------------
  // Owned two-dimensional arrays: Array2

  /**
   * `from_iterator_generic(nrows, ncols, t().iter().cloned())`: nalgebra fills its storage
   * column by column from the iterator, and iterating the transpose visits the array
   * column by column, so entry (i, j) of the matrix is element [i, j] of the array.
   */
  function Array2IntoNalgebra<T>(a: Array<T>): (r: DMatrix<T>)
    requires a.Valid() && Rank(a.layout, 2)
    ensures r.Valid() && r.nrows == a.layout.shape[0] && r.ncols == a.layout.shape[1]
    ensures forall i: nat, j: nat :: i < r.nrows && j < r.ncols ==> At(r, i, j) == Get2(a.data, a.layout, i, j)
  {
    var t := Transposed(a.layout);
    var r := DMatrix(a.layout.shape[0], a.layout.shape[1], Iter2(a.data, t));
    assert r.Valid();
    assert forall i: nat, j: nat :: i < r.nrows && j < r.ncols ==> At(r, i, j) == Get2(a.data, a.layout, i, j) by {
      forall i: nat, j: nat | i < r.nrows && j < r.ncols ensures At(r, i, j) == Get2(a.data, a.layout, i, j) {
        Iter2At(a.data, t, j, i);
        assert At2(t, j, i) == At2(a.layout, i, j);
      }
    }
    r
  }

  /** Converting `reversed_axes()` of an owned array: column j of the matrix is row j of the array. */
  lemma Array2ReversedAxes<T>(a: Array<T>, j: nat)
    requires a.Valid() && Rank(a.layout, 2) && j < a.layout.shape[0]
    ensures var r := Array2IntoNalgebra(Array(Transposed(a.layout), a.data));
      r.nrows == a.layout.shape[1] && r.ncols == a.layout.shape[0] &&
      forall i: nat :: i < r.nrows ==> At(r, i, j) == Get2(a.data, a.layout, j, i)
  {
    var b := Array(Transposed(a.layout), a.data);
    forall i: nat | i < a.layout.shape[1] ensures Get2(b.data, b.layout, i, j) == Get2(a.data, a.layout, j, i) {
      assert At2(b.layout, i, j) == At2(a.layout, j, i);
    }
  }

  /**
   * The corrected owned round trip: an owned matrix read column by column into ndarray
   * and converted back is unchanged.
   */
  lemma MatrixRoundTrip<T>(d: DMatrix<T>)
    requires d.Valid()
    ensures Array2IntoNalgebra(DMatrixToArray2ColumnMajor(d).value) == d
  {
    var a := DMatrixToArray2ColumnMajor(d).value;
    var r := Array2IntoNalgebra(a);
    forall p: nat | p < |d.data| ensures r.data[p] == d.data[p] {
      Unpack(p, d.ncols, d.nrows);
      var i, j := p % d.nrows, p / d.nrows;
      assert p == i + j * d.nrows;
      assert At(r, i, j) == r.data[p] && At(d, i, j) == d.data[p];
    }
    assert r.data == d.data;
  }

  /**
   * The owned round trip as written does not return the matrix: for the 2 x 2 matrix with
   * storage 1, 2, 3, 4 (columns (1, 2) and (3, 4)) it returns storage 1, 3, 2, 4.
   */
  lemma MatrixRoundTripAsWritten(d: DMatrix<int>)
    requires d == DMatrix(2, 2, [1, 2, 3, 4])
    ensures Array2IntoNalgebra(DMatrixToArray2(d).value) == DMatrix(2, 2, [1, 3, 2, 4])
  {
    var a := DMatrixToArray2(d).value;
    var r := Array2IntoNalgebra(a);
    DMatrixToArray2Transposes(d);
    assert At(r, 0, 1) == At(d, 1, 0) && At(r, 1, 0) == At(d, 0, 1);
    assert At(r, 0, 0) == At(d, 0, 0) && At(r, 1, 1) == At(d, 1, 1);
  }

  /**
   * The owned 4 x 4 example: `into_nalgebra()` has shape (4, 4) and row 1 is 5, 6, 7, 8;
   * after `reversed_axes()` column 1 is 5, 6, 7, 8.
   */
  lemma Array2Example(a: Array<int>)
    requires a == Array(Layout(0, [4, 4], [4, 1]), [1, 2, 3, 4, 5, 6, 7, 8, 11, 12, 13, 14, 15, 16, 17, 18])
    ensures a.Valid()
    ensures var m := Array2IntoNalgebra(a);
      var t := Array2IntoNalgebra(Array(Transposed(a.layout), a.data));
      m.nrows == 4 && m.ncols == 4 && t.nrows == 4 && t.ncols == 4 &&
      forall k: nat :: k < 4 ==> At(m, 1, k) == a.data[4 + k] && At(t, k, 1) == a.data[4 + k]
  {
    Fits2(a.layout, 16);
    assert a.Valid() by {
      forall i: nat, j: nat | i < 4 && j < 4 ensures 0 <= At2(a.layout, i, j) < 16 {
        PackedBound(i, j, 4, 4);
      }
    }
    Array2ReversedAxes(a, 1);
  }
}
