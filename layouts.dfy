/**
 * The strided layout through which ndarray sees memory: an array or a view of rank r
 * is an offset into a flat buffer, r extents and r strides (counted in elements), and
 * the element at index idx lives in slot offset + sum of idx[k] * strides[k].
 * Views borrow a buffer they share with their source; owned arrays carry their buffer.
 */
module Layouts {
  import opened Outcomes
  import opened Arith

  /** `offset` is the slot of element [0, ..., 0]; ndarray strides are `isize`. */
  datatype Layout = Layout(offset: nat, shape: seq<nat>, strides: seq<int>)

  predicate Shaped(L: Layout) {
    |L.shape| == |L.strides|
  }

  predicate Rank(L: Layout, r: nat) {
    Shaped(L) && |L.shape| == r
  }

  predicate ValidIndex(L: Layout, idx: seq<nat>) {
    |idx| == |L.shape| && forall k :: 0 <= k < |idx| ==> idx[k] < L.shape[k]
  }

  function Dot(idx: seq<nat>, strides: seq<int>): int
    requires |idx| == |strides|
  {
    if |idx| == 0 then 0 else idx[0] * strides[0] + Dot(idx[1..], strides[1..])
  }

  /** The buffer slot of the element at `idx`. */
  function Addr(L: Layout, idx: seq<nat>): int
    requires Shaped(L) && |idx| == |L.shape|
  {
    L.offset + Dot(idx, L.strides)
  }

  /** Every element of the layout lies inside a buffer of `n` slots. */
  ghost predicate FitsIn(L: Layout, n: nat) {
    Shaped(L) && forall idx :: ValidIndex(L, idx) ==> 0 <= Addr(L, idx) < n
  }

  // ---------------------------------------------------------------------------
  // Addresses by rank

  function At1(L: Layout, i: nat): int
    requires Rank(L, 1)
  {
    L.offset + i * L.strides[0]
  }

  function At2(L: Layout, i: nat, j: nat): int
    requires Rank(L, 2)
  {
    L.offset + i * L.strides[0] + j * L.strides[1]
  }

  function At3(L: Layout, i: nat, j: nat, k: nat): int
    requires Rank(L, 3)
  {
    L.offset + i * L.strides[0] + j * L.strides[1] + k * L.strides[2]
  }

  /** The rank-specific addresses are the general one. */
  lemma AddrAt1(L: Layout, i: nat)
    requires Rank(L, 1)
    ensures Addr(L, [i]) == At1(L, i)
  {
    assert [i][1..] == [] && Dot([], L.strides[1..]) == 0;
  }

  lemma AddrAt2(L: Layout, i: nat, j: nat)
    requires Rank(L, 2)
    ensures Addr(L, [i, j]) == At2(L, i, j)
  {
    assert [i, j][1..] == [j] && [j][1..] == [] && Dot([], L.strides[2..]) == 0;
    assert Dot([j], L.strides[1..]) == j * L.strides[1];
  }

  lemma AddrAt3(L: Layout, i: nat, j: nat, k: nat)
    requires Rank(L, 3)
    ensures Addr(L, [i, j, k]) == At3(L, i, j, k)
  {
    assert [i, j, k][1..] == [j, k] && [j, k][1..] == [k] && [k][1..] == [] && Dot([], L.strides[3..]) == 0;
    assert L.strides[1..][1..] == L.strides[2..] && L.strides[2..][1..] == L.strides[3..];
    assert Dot([k], L.strides[2..]) == k * L.strides[2];
    assert Dot([j, k], L.strides[1..]) == j * L.strides[1] + k * L.strides[2];
  }

  lemma Fits1(L: Layout, n: nat)
    requires Rank(L, 1)
    ensures FitsIn(L, n) <==> forall i :: i < L.shape[0] ==> 0 <= At1(L, i) < n
  {
    if forall i :: i < L.shape[0] ==> 0 <= At1(L, i) < n {
      forall idx | ValidIndex(L, idx) ensures 0 <= Addr(L, idx) < n {
        assert idx == [idx[0]];
        AddrAt1(L, idx[0]);
      }
    }
    if FitsIn(L, n) {
      forall i | i < L.shape[0] ensures 0 <= At1(L, i) < n {
        assert ValidIndex(L, [i]);
        AddrAt1(L, i);
      }
    }
  }

  lemma Fits2(L: Layout, n: nat)
    requires Rank(L, 2)
    ensures FitsIn(L, n) <==>
      forall i, j :: i < L.shape[0] && j < L.shape[1] ==> 0 <= At2(L, i, j) < n
  {
    if forall i, j :: i < L.shape[0] && j < L.shape[1] ==> 0 <= At2(L, i, j) < n {
      forall idx | ValidIndex(L, idx) ensures 0 <= Addr(L, idx) < n {
        assert idx == [idx[0], idx[1]];
        AddrAt2(L, idx[0], idx[1]);
      }
    }
    if FitsIn(L, n) {
      forall i, j | i < L.shape[0] && j < L.shape[1] ensures 0 <= At2(L, i, j) < n {
        assert ValidIndex(L, [i, j]);
        AddrAt2(L, i, j);
      }
    }
  }

  lemma Fits3(L: Layout, n: nat)
    requires Rank(L, 3)
    ensures FitsIn(L, n) <==>
      forall i, j, k :: i < L.shape[0] && j < L.shape[1] && k < L.shape[2] ==> 0 <= At3(L, i, j, k) < n
  {
    if forall i, j, k :: i < L.shape[0] && j < L.shape[1] && k < L.shape[2] ==> 0 <= At3(L, i, j, k) < n {
      forall idx | ValidIndex(L, idx) ensures 0 <= Addr(L, idx) < n {
        assert idx == [idx[0], idx[1], idx[2]];
        AddrAt3(L, idx[0], idx[1], idx[2]);
      }
    }
    if FitsIn(L, n) {
      forall i, j, k | i < L.shape[0] && j < L.shape[1] && k < L.shape[2]
        ensures 0 <= At3(L, i, j, k) < n
      {
        assert ValidIndex(L, [i, j, k]);
        AddrAt3(L, i, j, k);
      }
    }
  }

  /** Element [i] of a 1-D array, `a[i]`. */
  function Get1<T>(buf: seq<T>, L: Layout, i: nat): T
    requires Rank(L, 1) && FitsIn(L, |buf|) && i < L.shape[0]
  {
    assert 0 <= At1(L, i) < |buf| by {
      Fits1(L, |buf|);
    }
    buf[At1(L, i)]
  }

  /** Element [i, j] of a 2-D array, `a[[i, j]]`. */
  function Get2<T>(buf: seq<T>, L: Layout, i: nat, j: nat): T
    requires Rank(L, 2) && FitsIn(L, |buf|) && i < L.shape[0] && j < L.shape[1]
  {
    assert 0 <= At2(L, i, j) < |buf| by {
      Fits2(L, |buf|);
    }
    buf[At2(L, i, j)]
  }

  /** Element [i, j, k] of a 3-D array, `a[[i, j, k]]`. */
  function Get3<T>(buf: seq<T>, L: Layout, i: nat, j: nat, k: nat): T
    requires Rank(L, 3) && FitsIn(L, |buf|) && i < L.shape[0] && j < L.shape[1] && k < L.shape[2]
  {
    assert 0 <= At3(L, i, j, k) < |buf| by {
      Fits3(L, |buf|);
    }
    buf[At3(L, i, j, k)]
  }

  /** `a[[i]]` reads the buffer slot at the general address of the valid index [i]. */
  lemma Get1Addr<T>(buf: seq<T>, L: Layout, i: nat)
    requires Rank(L, 1) && FitsIn(L, |buf|) && i < L.shape[0]
    ensures ValidIndex(L, [i]) && 0 <= Addr(L, [i]) < |buf| && Get1(buf, L, i) == buf[Addr(L, [i])]
  {
    assert ValidIndex(L, [i]);
    AddrAt1(L, i);
  }

  /** `a[[i, j]]` reads the buffer slot at the general address of the valid index [i, j]. */
  lemma Get2Addr<T>(buf: seq<T>, L: Layout, i: nat, j: nat)
    requires Rank(L, 2) && FitsIn(L, |buf|) && i < L.shape[0] && j < L.shape[1]
    ensures ValidIndex(L, [i, j]) && 0 <= Addr(L, [i, j]) < |buf| && Get2(buf, L, i, j) == buf[Addr(L, [i, j])]
  {
    assert ValidIndex(L, [i, j]);
    AddrAt2(L, i, j);
  }

  /** `a[[i, j, k]]` reads the buffer slot at the general address of the valid index [i, j, k]. */
  lemma Get3Addr<T>(buf: seq<T>, L: Layout, i: nat, j: nat, k: nat)
    requires Rank(L, 3) && FitsIn(L, |buf|) && i < L.shape[0] && j < L.shape[1] && k < L.shape[2]
    ensures ValidIndex(L, [i, j, k]) && 0 <= Addr(L, [i, j, k]) < |buf|
    ensures Get3(buf, L, i, j, k) == buf[Addr(L, [i, j, k])]
  {
    assert ValidIndex(L, [i, j, k]);
    AddrAt3(L, i, j, k);
  }

  // ---------------------------------------------------------------------------
  // Iteration in logical (row-major) order, as ndarray's `iter()` yields

  function Iter1<T>(buf: seq<T>, L: Layout): (r: seq<T>)
    requires Rank(L, 1) && FitsIn(L, |buf|)
    ensures |r| == L.shape[0]
    ensures forall k :: 0 <= k < |r| ==> r[k] == Get1(buf, L, k)
  {
    Fits1(L, |buf|);
    seq(L.shape[0], k requires 0 <= k < L.shape[0] => buf[At1(L, k)])
  }

  function Iter2<T>(buf: seq<T>, L: Layout): (r: seq<T>)
    requires Rank(L, 2) && FitsIn(L, |buf|)
    ensures |r| == L.shape[0] * L.shape[1]
  {
    Fits2(L, |buf|);
    seq(L.shape[0] * L.shape[1], p requires 0 <= p < L.shape[0] * L.shape[1] =>
      Unpack(p, L.shape[0], L.shape[1]);
      buf[At2(L, p / L.shape[1], p % L.shape[1])])
  }

  /** The element at [i, j] is yielded in position i * ncols + j. */
  lemma Iter2At<T>(buf: seq<T>, L: Layout, i: nat, j: nat)
    requires Rank(L, 2) && FitsIn(L, |buf|)
    requires i < L.shape[0] && j < L.shape[1]
    ensures i * L.shape[1] + j < |Iter2(buf, L)| && Iter2(buf, L)[i * L.shape[1] + j] == Get2(buf, L, i, j)
  {
    PackedBound(i, j, L.shape[0], L.shape[1]);
    PackedDivMod(i, j, L.shape[1]);
    Fits2(L, |buf|);
  }

  /** `sum()`: the elements added up in order, so splitting off the last one adds it. */
  function Sum(s: seq<int>): (r: int)
    ensures |s| == 0 ==> r == 0
    ensures |s| > 0 ==> r == Sum(s[..|s| - 1]) + s[|s| - 1]
  {
    if |s| == 0 then 0
    else
      assert |s| > 1 ==> s[..|s| - 1][1..] == s[1..][..|s| - 2];
      s[0] + Sum(s[1..])
  }

  lemma SumPair(s: seq<int>)
    requires |s| == 2
    ensures Sum(s) == s[0] + s[1]
  {
    assert s[1..][0] == s[1] && s[1..][1..] == [];
    assert Sum(s[1..]) == s[1] + Sum(s[1..][1..]);
  }

  // ---------------------------------------------------------------------------
  // Slicing with ndarray's `s![..]` and axis reversal

  /** `s![i, ..]` of a 2-D layout. */
  function Row(L: Layout, i: nat): (r: Layout)
    requires Rank(L, 2) && i < L.shape[0] && L.offset + i * L.strides[0] >= 0
    ensures Rank(r, 1) && r.shape[0] == L.shape[1]
    ensures forall j :: At1(r, j) == At2(L, i, j)
    ensures forall n: nat :: FitsIn(L, n) ==> FitsIn(r, n)
  {
    var r := Layout(L.offset + i * L.strides[0], [L.shape[1]], [L.strides[1]]);
    assert forall n: nat :: FitsIn(L, n) ==> FitsIn(r, n) by {
      forall n: nat | FitsIn(L, n) ensures FitsIn(r, n) {
        Fits2(L, n);
        Fits1(r, n);
        forall j | j < r.shape[0] ensures 0 <= At1(r, j) < n {
          assert At1(r, j) == At2(L, i, j);
        }
      }
    }
    r
  }

  /** `s![.., j]` of a 2-D layout. */
  function Column(L: Layout, j: nat): (r: Layout)
    requires Rank(L, 2) && j < L.shape[1] && L.offset + j * L.strides[1] >= 0
    ensures Rank(r, 1) && r.shape[0] == L.shape[0]
    ensures forall i :: At1(r, i) == At2(L, i, j)
    ensures forall n: nat :: FitsIn(L, n) ==> FitsIn(r, n)
  {
    var r := Layout(L.offset + j * L.strides[1], [L.shape[0]], [L.strides[0]]);
    assert forall n: nat :: FitsIn(L, n) ==> FitsIn(r, n) by {
      forall n: nat | FitsIn(L, n) ensures FitsIn(r, n) {
        Fits2(L, n);
        Fits1(r, n);
        forall i | i < r.shape[0] ensures 0 <= At1(r, i) < n {
          assert At1(r, i) == At2(L, i, j);
        }
      }
    }
    r
  }

  /** `s![c, .., ..]` of a 3-D layout. */
  function Plane(L: Layout, c: nat): (r: Layout)
    requires Rank(L, 3) && c < L.shape[0] && L.offset + c * L.strides[0] >= 0
    ensures Rank(r, 2) && r.shape == L.shape[1..]
    ensures forall i, j :: At2(r, i, j) == At3(L, c, i, j)
    ensures forall n: nat :: FitsIn(L, n) ==> FitsIn(r, n)
  {
    var r := Layout(L.offset + c * L.strides[0], L.shape[1..], L.strides[1..]);
    assert forall n: nat :: FitsIn(L, n) ==> FitsIn(r, n) by {
      forall n: nat | FitsIn(L, n) ensures FitsIn(r, n) {
        Fits3(L, n);
        Fits2(r, n);
        forall i, j | i < r.shape[0] && j < r.shape[1] ensures 0 <= At2(r, i, j) < n {
          assert At2(r, i, j) == At3(L, c, i, j);
        }
      }
    }
    r
  }

  /** `t()` / `reversed_axes()` of a 2-D layout: same slots, axes swapped. */
  function Transposed(L: Layout): (r: Layout)
    requires Rank(L, 2)
    ensures Rank(r, 2) && r.shape == [L.shape[1], L.shape[0]]
    ensures forall i, j :: At2(r, j, i) == At2(L, i, j)
    ensures forall n: nat :: FitsIn(L, n) ==> FitsIn(r, n)
  {
    var r := Layout(L.offset, [L.shape[1], L.shape[0]], [L.strides[1], L.strides[0]]);
    assert forall n: nat :: FitsIn(L, n) ==> FitsIn(r, n) by {
      forall n: nat | FitsIn(L, n) ensures FitsIn(r, n) {
        Fits2(L, n);
        Fits2(r, n);
        forall i, j | i < r.shape[0] && j < r.shape[1] ensures 0 <= At2(r, i, j) < n {
          assert At2(r, i, j) == At2(L, j, i);
        }
      }
    }
    r
  }

  // ---------------------------------------------------------------------------
  // Writing through a mutable view

  /** Some element of the layout lives in slot `p`. */
  ghost predicate Touches(L: Layout, p: int) {
    Shaped(L) && exists idx :: ValidIndex(L, idx) && Addr(L, idx) == p
  }

  /** ndarray's `fill(x)` on a mutable view: every slot the view touches becomes `x`. */
  ghost function Fill<T>(buf: seq<T>, L: Layout, x: T): (r: seq<T>)
    ensures |r| == |buf|
    ensures forall p :: 0 <= p < |buf| ==> r[p] == if Touches(L, p) then x else buf[p]
  {
    seq(|buf|, p requires 0 <= p < |buf| => if Touches(L, p) then x else buf[p])
  }

  lemma Touches1(L: Layout, p: int)
    requires Rank(L, 1)
    ensures Touches(L, p) <==> exists k :: k < L.shape[0] && At1(L, k) == p
  {
    if Touches(L, p) {
      var idx :| ValidIndex(L, idx) && Addr(L, idx) == p;
      assert idx == [idx[0]];
      AddrAt1(L, idx[0]);
    }
    if exists k :: k < L.shape[0] && At1(L, k) == p {
      var k :| k < L.shape[0] && At1(L, k) == p;
      assert ValidIndex(L, [k]);
      AddrAt1(L, k);
    }
  }

  lemma Touches2(L: Layout, p: int)
    requires Rank(L, 2)
    ensures Touches(L, p) <==> exists i, j :: i < L.shape[0] && j < L.shape[1] && At2(L, i, j) == p
  {
    if Touches(L, p) {
      var idx :| ValidIndex(L, idx) && Addr(L, idx) == p;
      assert idx == [idx[0], idx[1]];
      AddrAt2(L, idx[0], idx[1]);
    }
    if exists i, j :: i < L.shape[0] && j < L.shape[1] && At2(L, i, j) == p {
      var i, j :| i < L.shape[0] && j < L.shape[1] && At2(L, i, j) == p;
      assert ValidIndex(L, [i, j]);
      AddrAt2(L, i, j);
    }
  }

  lemma Touches3(L: Layout, p: int)
    requires Rank(L, 3)
    ensures Touches(L, p) <==>
      exists i, j, k :: i < L.shape[0] && j < L.shape[1] && k < L.shape[2] && At3(L, i, j, k) == p
  {
    if Touches(L, p) {
      var idx :| ValidIndex(L, idx) && Addr(L, idx) == p;
      assert idx == [idx[0], idx[1], idx[2]];
      AddrAt3(L, idx[0], idx[1], idx[2]);
    }
    if exists i, j, k :: i < L.shape[0] && j < L.shape[1] && k < L.shape[2] && At3(L, i, j, k) == p {
      var i, j, k :| i < L.shape[0] && j < L.shape[1] && k < L.shape[2] && At3(L, i, j, k) == p;
      assert ValidIndex(L, [i, j, k]);
      AddrAt3(L, i, j, k);
    }
  }

  /** After `fill(x)` on a whole 2-D array, every element reads `x`. */
  lemma FillReads2<T>(buf: seq<T>, L: Layout, x: T, i: nat, j: nat)
    requires Rank(L, 2) && FitsIn(L, |buf|) && i < L.shape[0] && j < L.shape[1]
    ensures FitsIn(L, |Fill(buf, L, x)|) && Get2(Fill(buf, L, x), L, i, j) == x
  {
    Fits2(L, |buf|);
    Touches2(L, At2(L, i, j));
  }

  /** After `fill(x)` on a whole 3-D array, every element reads `x`. */
  lemma FillReads3<T>(buf: seq<T>, L: Layout, x: T, i: nat, j: nat, k: nat)
    requires Rank(L, 3) && FitsIn(L, |buf|) && i < L.shape[0] && j < L.shape[1] && k < L.shape[2]
    ensures FitsIn(L, |Fill(buf, L, x)|) && Get3(Fill(buf, L, x), L, i, j, k) == x
  {
    Fits3(L, |buf|);
    Touches3(L, At3(L, i, j, k));
  }

  // ---------------------------------------------------------------------------
  // Building layouts checked against a buffer: `from_shape` / `from_shape_vec`

  function Size(shape: seq<nat>): nat {
    if |shape| == 0 then 1 else shape[0] * Size(shape[1..])
  }

  /** The largest distance from element [0, ..., 0] to any element, for non-negative strides. */
  function MaxOffset(shape: seq<nat>, strides: seq<nat>): nat
    requires |shape| == |strides|
  {
    if |shape| == 0 then 0
    else (if shape[0] == 0 then 0 else (shape[0] - 1) * strides[0]) + MaxOffset(shape[1..], strides[1..])
  }

  /**
   * `from_shape(shape.strides(strides), slice)` and `from_shape_vec(shape.strides(strides), vec)`
   * with non-negative strides. A layout with elements is accepted exactly when all of them
   * lie inside the buffer. An empty one (some extent 0) has no element to check, yet ndarray
   * still compares its largest offset, counting empty axes as 0, with the buffer length and
   * accepts it only when that offset is at most the length.
   */
  function FromShapeStrides(shape: seq<nat>, strides: seq<nat>, len: nat): (r: Option<Layout>)
    requires |shape| == |strides|
    ensures Size(shape) > 0 ==> (r.Some? <==> FitsIn(Layout(0, shape, strides), len))
    ensures Size(shape) == 0 ==> (r.Some? <==> MaxOffset(shape, strides) <= len)
    ensures r.Some? ==> r.value == Layout(0, shape, strides) && FitsIn(r.value, len)
  {
    FromShapeStridesCheck(shape, strides, len);
    if Size(shape) == 0 then
      if MaxOffset(shape, strides) <= len then Some(Layout(0, shape, strides)) else None
    else
      if MaxOffset(shape, strides) < len then Some(Layout(0, shape, strides)) else None
  }

  /**
   * An empty 2-D layout whose every (absent) element would fit is still refused: a (0, 4)
   * shape with strides (4, 1) has largest offset 3, more than an empty buffer holds.
   */
  lemma FromShapeStridesEmptyRefused()
    ensures FitsIn(Layout(0, [0, 4], [4, 1]), 0)
    ensures FromShapeStrides([0, 4], [4, 1], 0) == None
  {
    assert MaxOffset([0, 4], [4, 1]) == 3 by {
      assert [0, 4][1..] == [4] && [4, 1][1..] == [1];
      assert [4][1..] == [] && [1][1..] == [];
    }
    FromShapeStridesCheck([0, 4], [4, 1], 0);
  }

  /** ndarray's row-major ("C order") strides for a shape. */
  function CStrides(shape: seq<nat>): (s: seq<nat>)
    ensures |s| == |shape|
  {
    if |shape| == 0 then [] else [Size(shape[1..])] + CStrides(shape[1..])
  }

  /** `from_shape_vec(shape, vec)` without explicit strides: row-major, and the length must match. */
  function FromShapeVec(shape: seq<nat>, len: nat): (r: Option<Layout>)
    ensures r.Some? <==> Size(shape) == len
    ensures r.Some? ==> r.value == Layout(0, shape, CStrides(shape)) && FitsIn(r.value, len)
  {
    if Size(shape) == len then
      CStridesFit(shape);
      Some(Layout(0, shape, CStrides(shape)))
    else None
  }

  /** Size and C-order strides of a one-dimensional shape. */
  lemma Shape1(n: nat)
    ensures Size([n]) == n && CStrides([n]) == [1]
  {
    assert [n][1..] == [];
  }

  /** Size and C-order strides of a two-dimensional shape. */
  lemma Shape2(m: nat, n: nat)
    ensures Size([m, n]) == m * n && CStrides([m, n]) == [n, 1]
  {
    assert [m, n][1..] == [n];
    Shape1(n);
  }

  /** In a row-major (m, n) layout from offset 0, element [i, j] is stored value i * n + j. */
  lemma GetRowMajor<T>(buf: seq<T>, L: Layout, i: nat, j: nat)
    requires |L.shape| == 2 && L == Layout(0, [L.shape[0], L.shape[1]], [L.shape[1], 1])
    requires |buf| == L.shape[0] * L.shape[1] && FitsIn(L, |buf|)
    requires i < L.shape[0] && j < L.shape[1]
    ensures i * L.shape[1] + j < |buf| && Get2(buf, L, i, j) == buf[i * L.shape[1] + j]
  {
    PackedBound(i, j, L.shape[0], L.shape[1]);
    assert At2(L, i, j) == i * L.shape[1] + j;
  }

  /** Position p of the iteration of a row-major (m, n) layout from offset 0 is slot p. */
  lemma RowMajorSlot<T>(buf: seq<T>, L: Layout, p: nat)
    requires |L.shape| == 2 && L == Layout(0, [L.shape[0], L.shape[1]], [L.shape[1], 1])
    requires FitsIn(L, |buf|) && p < L.shape[0] * L.shape[1]
    ensures p < |buf| && Iter2(buf, L)[p] == buf[p]
  {
    var n := L.shape[1];
    Unpack(p, L.shape[0], n);
    Iter2At(buf, L, p / n, p % n);
    assert At2(L, p / n, p % n) == p;
    Fits2(L, |buf|);
  }

  /** A row-major (m, n) layout from offset 0 iterates the first m * n slots in order. */
  lemma Iter2RowMajor<T>(buf: seq<T>, L: Layout)
    requires |L.shape| == 2 && L == Layout(0, [L.shape[0], L.shape[1]], [L.shape[1], 1])
    requires FitsIn(L, |buf|)
    ensures L.shape[0] * L.shape[1] <= |buf| && Iter2(buf, L) == buf[..L.shape[0] * L.shape[1]]
  {
    var size := L.shape[0] * L.shape[1];
    if size > 0 {
      RowMajorSlot(buf, L, size - 1);
    }
    forall p | 0 <= p < size ensures Iter2(buf, L)[p] == buf[p] {
      RowMajorSlot(buf, L, p);
    }
  }

  /** An owned array: a layout over a buffer it owns (`into_raw_vec` hands the buffer back). */
  datatype Array<T> = Array(layout: Layout, data: seq<T>) {
    ghost predicate Valid() {
      FitsIn(layout, |data|)
    }
  }

  // ---------------------------------------------------------------------------
  // Proofs about the checks

  lemma {:induction false} DotBounds(idx: seq<nat>, shape: seq<nat>, strides: seq<nat>)
    requires |idx| == |shape| == |strides|
    requires forall k :: 0 <= k < |idx| ==> idx[k] < shape[k]
    ensures 0 <= Dot(idx, strides) <= MaxOffset(shape, strides)
  {
    if |idx| > 0 {
      DotBounds(idx[1..], shape[1..], strides[1..]);
      MulMono(idx[0], shape[0] - 1, strides[0]);
    }
  }

  function LastIndex(shape: seq<nat>): (idx: seq<nat>)
    requires forall k :: 0 <= k < |shape| ==> shape[k] > 0
    ensures |idx| == |shape| && forall k :: 0 <= k < |idx| ==> idx[k] == shape[k] - 1
  {
    seq(|shape|, k requires 0 <= k < |shape| => shape[k] - 1)
  }

  lemma {:induction false} LastIndexDot(shape: seq<nat>, strides: seq<nat>)
    requires |shape| == |strides|
    requires forall k :: 0 <= k < |shape| ==> shape[k] > 0
    ensures Dot(LastIndex(shape), strides) == MaxOffset(shape, strides)
  {
    if |shape| > 0 {
      assert LastIndex(shape)[1..] == LastIndex(shape[1..]);
      LastIndexDot(shape[1..], strides[1..]);
    }
  }

  lemma {:induction false} SizeZero(shape: seq<nat>)
    ensures Size(shape) == 0 <==> exists k :: 0 <= k < |shape| && shape[k] == 0
  {
    if |shape| > 0 {
      SizeZero(shape[1..]);
      if shape[0] != 0 && Size(shape[1..]) != 0 {
        assert Size(shape) != 0;
      }
      if exists k :: 0 <= k < |shape[1..]| && shape[1..][k] == 0 {
        var k :| 0 <= k < |shape[1..]| && shape[1..][k] == 0;
        assert shape[k + 1] == 0;
      }
      if exists k :: 0 <= k < |shape| && shape[k] == 0 {
        var k :| 0 <= k < |shape| && shape[k] == 0;
        if k > 0 {
          assert shape[1..][k - 1] == 0;
        }
      }
    }
  }

  lemma FromShapeStridesCheck(shape: seq<nat>, strides: seq<nat>, len: nat)
    requires |shape| == |strides|
    ensures (Size(shape) == 0 || MaxOffset(shape, strides) < len) <==> FitsIn(Layout(0, shape, strides), len)
  {
    var L := Layout(0, shape, strides);
    SizeZero(shape);
    if Size(shape) == 0 {
      var k :| 0 <= k < |shape| && shape[k] == 0;
      forall idx | ValidIndex(L, idx) ensures false {
      }
    } else if MaxOffset(shape, strides) < len {
      forall idx | ValidIndex(L, idx) ensures 0 <= Addr(L, idx) < len {
        DotBounds(idx, shape, strides);
      }
    } else {
      var last := LastIndex(shape);
      LastIndexDot(shape, strides);
      assert ValidIndex(L, last);
      assert Addr(L, last) >= len;
    }
  }

  lemma {:induction false} CStridesBound(idx: seq<nat>, shape: seq<nat>)
    requires |idx| == |shape|
    requires forall k :: 0 <= k < |idx| ==> idx[k] < shape[k]
    ensures 0 <= Dot(idx, CStrides(shape)) < Size(shape)
  {
    if |idx| > 0 {
      CStridesBound(idx[1..], shape[1..]);
      PackedBound(idx[0], Dot(idx[1..], CStrides(shape[1..])), shape[0], Size(shape[1..]));
    }
  }

  lemma CStridesFit(shape: seq<nat>)
    ensures FitsIn(Layout(0, shape, CStrides(shape)), Size(shape))
  {
    var L := Layout(0, shape, CStrides(shape));
    forall idx | ValidIndex(L, idx) ensures 0 <= Addr(L, idx) < Size(shape) {
      CStridesBound(idx, shape);
    }
  }
}
