/**
 * Image buffers seen as ndarray arrays (src/tondarray/image_impl.rs).
 *
 * Every conversion destructures `sample_layout()` into a shape and a stride tuple and
 * asks ndarray to check them against the sample vector: a Luma image becomes a
 * (height, width) array, any image a (channels, height, width) array. The borrowed
 * conversions are views over the image's own vector; the owned ones keep that vector.
 * Every image with pixels and samples converts; some empty ones make the `unwrap()` panic,
 * because ndarray still bounds the largest offset of an empty layout by the vector length.
 */
module ImageToNdarray {
  import opened Outcomes
  import opened Arith
  import opened Layouts
  import opened Images

  // ---------------------------------------------------------------------------
  // ndarray's check on the layouts of empty images

  /** The largest offset of a gray image's (height, width) layout with strides (width, 1). */
  lemma GrayMaxOffset(h: nat, w: nat)
    ensures Size([h, w]) == 0 <==> h == 0 || w == 0
    ensures h == 0 || w == 0 ==> MaxOffset([h, w], [w, 1]) + 1 == if h == 0 && w > 0 then w else 1
  {
    assert [h, w][1..] == [w] && [w, 1][1..] == [1];
    assert [w][1..] == [] && [1][1..] == [];
    assert Size([w]) == w * Size([]);
    assert Size([h, w]) == h * w;
    assert MaxOffset([w], [1]) == (if w == 0 then 0 else w - 1) + MaxOffset([], []);
    assert MaxOffset([h, w], [w, 1]) == (if h == 0 then 0 else (h - 1) * w) + MaxOffset([w], [1]);
    if h > 0 && w == 0 {
      assert (h - 1) * w == 0;
    }
  }

  /**
   * The largest offset of an image's (channels, height, width) layout with strides
   * (1, channels * width, channels).
   */
  lemma ImageMaxOffset(c: nat, h: nat, w: nat)
    ensures Size([c, h, w]) == 0 <==> c == 0 || h == 0 || w == 0
    ensures c == 0 || h == 0 || w == 0 ==>
      MaxOffset([c, h, w], [1, c * w, c]) + 1 == if c == 0 then 1 else if w == 0 then c else c * w
  {
    var cw := c * w;
    MaxOffset3(c, h, w, 1, cw, c);
    assert Size([c, h, w]) == c * (h * w) by {
      assert [c, h, w][1..] == [h, w] && [h, w][1..] == [w] && [w][1..] == [];
      assert Size([w]) == w * Size([]);
      assert Size([h, w]) == h * Size([w]);
    }
    if c == 0 {
      assert cw == 0;
      assert (h - 1) * cw == 0 && (w - 1) * c == 0;
    } else if w == 0 {
      assert cw == 0;
      assert (h - 1) * cw == 0;
    } else if h == 0 {
      assert (w - 1) * c == cw - c;
    }
  }

  /** ndarray's largest offset of a 3-D layout with non-negative strides, axis by axis. */
  lemma MaxOffset3(c: nat, h: nat, w: nat, s0: nat, s1: nat, s2: nat)
    ensures MaxOffset([c, h, w], [s0, s1, s2]) ==
      (if c == 0 then 0 else (c - 1) * s0) + (if h == 0 then 0 else (h - 1) * s1) + (if w == 0 then 0 else (w - 1) * s2)
  {
    assert [c, h, w][1..] == [h, w] && [s0, s1, s2][1..] == [s1, s2];
    assert [h, w][1..] == [w] && [s1, s2][1..] == [s2];
    assert [w][1..] == [] && [s2][1..] == [];
    assert MaxOffset([w], [s2]) == (if w == 0 then 0 else (w - 1) * s2) + MaxOffset([], []);
    assert MaxOffset([h, w], [s1, s2]) == (if h == 0 then 0 else (h - 1) * s1) + MaxOffset([w], [s2]);
  }

  // ---------------------------------------------------------------------------
  // Luma images: into_ndarray2, as_ndarray2, as_ndarray2_mut

  /**
   * `as_ndarray2` and `as_ndarray2_mut`: the view with shape (height, width) and strides
   * (height_stride, width_stride) over the sample vector, where element [y, x] is pixel
   * (x, y). `from_shape(..).unwrap()` panics on an image with no rows that is wider than
   * its vector's length plus one (`GrayImage::new(4, 0)`).
   */
  function AsNdarray2<T>(img: Image<T>): (r: Result<Layout>)
    requires img.Valid() && img.channels == 1
    ensures r.Ok? <==> img.height > 0 || img.width <= |img.raw| + 1
    ensures r.Err? ==> r.panic == UnwrapFailed
    ensures r.Ok? ==> Rank(r.value, 2) && r.value.offset == 0 && r.value.shape == [img.height, img.width]
    ensures r.Ok? ==> r.value.strides == [SampleLayoutOf(img).heightStride, SampleLayoutOf(img).widthStride]
    ensures r.Ok? ==> forall y: nat, x: nat :: At2(r.value, y, x) == PixelSlot(img.width, 1, x, y, 0)
    ensures r.Ok? ==> FitsIn(r.value, |img.raw|)
    ensures r.Ok? ==> forall y: nat, x: nat :: y < img.height && x < img.width ==>
      Get2(img.raw, r.value, y, x) == Sample(img, x, y, 0)
  {
    var s := SampleLayoutOf(img);
    var L := Layout(0, [s.height, s.width], [s.heightStride, s.widthStride]);
    assert forall y: nat, x: nat :: At2(L, y, x) == PixelSlot(img.width, 1, x, y, 0) by {
      forall y: nat, x: nat ensures At2(L, y, x) == PixelSlot(img.width, 1, x, y, 0) {
        assert 0 * s.channelStride + y * s.heightStride + x * s.widthStride == PixelSlot(img.width, 1, x, y, 0);
      }
    }
    assert FitsIn(L, |img.raw|) by {
      Fits2(L, |img.raw|);
      forall y, x | y < L.shape[0] && x < L.shape[1] ensures 0 <= At2(L, y, x) < |img.raw| {
        PixelSlotBound(img.width, img.height, 1, x, y, 0);
      }
    }
    assert s.heightStride == img.width && s.widthStride == 1;
    GrayMaxOffset(img.height, img.width);
    match FromShapeStrides([s.height, s.width], [s.heightStride, s.widthStride], |img.raw|)
    case None => Err(UnwrapFailed)
    case Some(view) => Ok(view)
  }

  /**
   * `into_ndarray2`: `from_shape_vec` with the same shape and strides over the vector
   * taken by `into_raw()`; it panics on the same empty images.
   */
  function IntoNdarray2<T>(img: Image<T>): (r: Result<Array<T>>)
    requires img.Valid() && img.channels == 1
    ensures r.Ok? <==> img.height > 0 || img.width <= |img.raw| + 1
    ensures r.Err? ==> r.panic == UnwrapFailed
    ensures r.Ok? ==> r.value.Valid() && r.value.data == img.raw
    ensures r.Ok? ==> Rank(r.value.layout, 2) && r.value.layout.shape == [img.height, img.width]
    ensures r.Ok? ==> (r.value.layout ==
      Layout(0, [img.height, img.width], [SampleLayoutOf(img).heightStride, SampleLayoutOf(img).widthStride]))
    ensures r.Ok? ==> forall y: nat, x: nat :: y < img.height && x < img.width ==>
      Get2(r.value.data, r.value.layout, y, x) == Sample(img, x, y, 0)
  {
    match AsNdarray2(img)
    case Err(e) => Err(e)
    case Ok(layout) => Ok(Array(layout, img.raw))
  }

  /**
   * The owned array is in standard (row-major) order: iterating it yields the samples in
   * the order the image stores them.
   */
  lemma IntoNdarray2Order<T>(img: Image<T>)
    requires img.Valid() && img.channels == 1
    ensures var r := IntoNdarray2(img);
      r.Ok? ==> img.width * img.height <= |img.raw| && Iter2(r.value.data, r.value.layout) == img.raw[..img.width * img.height]
  {
    if IntoNdarray2(img).Ok? {
      var a := IntoNdarray2(img).value;
      assert a.layout == Layout(0, [img.height, img.width], [img.width, 1]);
      Iter2RowMajor(a.data, a.layout);
      assert img.height * img.width == img.width * img.height;
    }
  }

  /**
   * `as_ndarray2_mut().slice_mut(s![y, ..]).fill(v)`: the write lands in the image, where
   * exactly the pixels of row y become `v`.
   */
  lemma AsNdarray2MutFillRow<T>(img: Image<T>, y: nat, v: T)
    requires img.Valid() && img.channels == 1 && y < img.height
    ensures var L := AsNdarray2(img).value;
      var after := Image(img.width, img.height, 1, Fill(img.raw, Row(L, y), v));
      after.Valid() &&
      forall x': nat, y': nat :: x' < img.width && y' < img.height ==>
        Sample(after, x', y', 0) == if y' == y then v else Sample(img, x', y', 0)
  {
    var L := AsNdarray2(img).value;
    var row := Row(L, y);
    var after := Image(img.width, img.height, 1, Fill(img.raw, row, v));
    forall x': nat, y': nat | x' < img.width && y' < img.height
      ensures Sample(after, x', y', 0) == if y' == y then v else Sample(img, x', y', 0)
    {
      var q := PixelSlot(img.width, 1, x', y', 0);
      PixelSlotBound(img.width, img.height, 1, x', y', 0);
      Touches1(row, q);
      if y' == y {
        assert At1(row, x') == At2(L, y, x') == q;
      } else {
        forall j: nat | j < row.shape[0] ensures At1(row, j) != q {
          assert At1(row, j) == At2(L, y, j) == PixelSlot(img.width, 1, j, y, 0);
          if At1(row, j) == q {
            PixelSlotUnique(img.width, 1, j, y, 0, x', y', 0);
          }
        }
      }
    }
  }

  /** `GrayImage::new(2, 4).into_ndarray2()` has dim (4, 2), and `fill(255)` sets every element. */
  lemma IntoNdarray2Example()
    ensures var a := IntoNdarray2(New(2, 4, 1, 0)).value;
      a.Valid() && a.layout.shape == [4, 2] &&
      forall y: nat, x: nat :: y < 4 && x < 2 ==> Get2(Fill(a.data, a.layout, 255), a.layout, y, x) == 255
  {
    var a := IntoNdarray2(New(2, 4, 1, 0)).value;
    forall y: nat, x: nat | y < 4 && x < 2 ensures Get2(Fill(a.data, a.layout, 255), a.layout, y, x) == 255 {
      FillReads2(a.data, a.layout, 255, y, x);
    }
  }

  /** With pixel (1, 0) of a 2 x 4 gray image set to 255, row 0 of `as_ndarray2()` sums to 255. */
  lemma AsNdarray2Example(img: Image<int>)
    requires img == PutPixel(New(2, 4, 1, 0), 1, 0, [255])
    ensures var L := AsNdarray2(img).value;
      L.shape == [4, 2] && FitsIn(Row(L, 0), |img.raw|) && Sum(Iter1(img.raw, Row(L, 0))) == 255
  {
    var L := AsNdarray2(img).value;
    var row := Iter1(img.raw, Row(L, 0));
    assert row[0] == Sample(img, 0, 0, 0) == 0;
    assert row[1] == Sample(img, 1, 0, 0) == 255;
    SumPair(row);
  }

  /** `as_ndarray2_mut().slice_mut(s![0, ..]).fill(255)` on a 2 x 4 gray image sets pixel (1, 0). */
  lemma AsNdarray2MutExample(img: Image<int>)
    requires img == New(2, 4, 1, 0)
    ensures AsNdarray2(img).Ok? && AsNdarray2(img).value.shape == [4, 2]
    ensures var after := Image(2, 4, 1, Fill(img.raw, Row(AsNdarray2(img).value, 0), 255));
      after.Valid() && Sample(after, 1, 0, 0) == 255
  {
    AsNdarray2MutFillRow(img, 0, 255);
  }

  /** `GrayImage::new(4, 0)` has no pixels, yet `as_ndarray2()` and `into_ndarray2()` panic on it. */
  lemma EmptyGrayImagePanics()
    ensures AsNdarray2(New(4, 0, 1, 0)) == Err(UnwrapFailed)
    ensures IntoNdarray2(New(4, 0, 1, 0)) == Err(UnwrapFailed)
  {
  }

  // ---------------------------------------------------------------------------
  // Any pixel type: into_ndarray3, as_ndarray3, as_ndarray3_mut

  /**
   * `as_ndarray3` and `as_ndarray3_mut`: the view with shape (channels, height, width) and
   * strides (channel_stride, height_stride, width_stride); element [k, y, x] is sample k
   * of pixel (x, y). `from_shape(..).unwrap()` panics on an image with samples per pixel
   * but no pixels when the empty layout reaches past its vector (`RgbImage::new(0, 4)`).
   */
  function AsNdarray3<T>(img: Image<T>): (r: Result<Layout>)
    requires img.Valid()
    ensures r.Ok? <==> (img.channels == 0 || (img.height > 0 && img.width > 0) ||
      img.channels * (if img.width == 0 then 1 else img.width) <= |img.raw| + 1)
    ensures r.Err? ==> r.panic == UnwrapFailed
    ensures r.Ok? ==> Rank(r.value, 3) && r.value.offset == 0
    ensures r.Ok? ==> r.value.shape == [img.channels, img.height, img.width]
    ensures r.Ok? ==> var s := SampleLayoutOf(img); r.value.strides == [s.channelStride, s.heightStride, s.widthStride]
    ensures r.Ok? ==> forall k: nat, y: nat, x: nat :: At3(r.value, k, y, x) == PixelSlot(img.width, img.channels, x, y, k)
    ensures r.Ok? ==> FitsIn(r.value, |img.raw|)
    ensures r.Ok? ==> forall k: nat, y: nat, x: nat :: k < img.channels && y < img.height && x < img.width ==>
      Get3(img.raw, r.value, k, y, x) == Sample(img, x, y, k)
  {
    var s := SampleLayoutOf(img);
    var L := Layout(0, [s.channels, s.height, s.width], [s.channelStride, s.heightStride, s.widthStride]);
    assert forall k: nat, y: nat, x: nat :: At3(L, k, y, x) == PixelSlot(img.width, img.channels, x, y, k) by {
      forall k: nat, y: nat, x: nat ensures At3(L, k, y, x) == PixelSlot(img.width, img.channels, x, y, k) {
        assert k * s.channelStride + y * s.heightStride + x * s.widthStride == PixelSlot(img.width, img.channels, x, y, k);
      }
    }
    assert FitsIn(L, |img.raw|) by {
      Fits3(L, |img.raw|);
      forall k, y, x | k < L.shape[0] && y < L.shape[1] && x < L.shape[2] ensures 0 <= At3(L, k, y, x) < |img.raw| {
        PixelSlotBound(img.width, img.height, img.channels, x, y, k);
      }
    }
    assert s.channelStride == 1 && s.heightStride == img.channels * img.width && s.widthStride == img.channels;
    ImageMaxOffset(img.channels, img.height, img.width);
    match FromShapeStrides([s.channels, s.height, s.width], [s.channelStride, s.heightStride, s.widthStride], |img.raw|)
    case None => Err(UnwrapFailed)
    case Some(view) => Ok(view)
  }

  /** `into_ndarray3`: the same layout over the vector taken by `into_raw()`, with the same panics. */
  function IntoNdarray3<T>(img: Image<T>): (r: Result<Array<T>>)
    requires img.Valid()
    ensures r.Ok? <==> (img.channels == 0 || (img.height > 0 && img.width > 0) ||
      img.channels * (if img.width == 0 then 1 else img.width) <= |img.raw| + 1)
    ensures r.Err? ==> r.panic == UnwrapFailed
    ensures r.Ok? ==> r.value.Valid() && r.value.data == img.raw
    ensures r.Ok? ==> Rank(r.value.layout, 3) && r.value.layout.shape == [img.channels, img.height, img.width]
    ensures r.Ok? ==> var s := SampleLayoutOf(img);
      r.value.layout == Layout(0, [s.channels, s.height, s.width], [s.channelStride, s.heightStride, s.widthStride])
    ensures r.Ok? ==> forall k: nat, y: nat, x: nat :: k < img.channels && y < img.height && x < img.width ==>
      Get3(r.value.data, r.value.layout, k, y, x) == Sample(img, x, y, k)
  {
    match AsNdarray3(img)
    case Err(e) => Err(e)
    case Ok(layout) => Ok(Array(layout, img.raw))
  }

  /** The image after `as_ndarray3_mut().slice_mut(s![k, .., ..]).fill(v)`, or the view's panic. */
  ghost function FillChannel<T>(img: Image<T>, k: nat, v: T): (after: Result<Image<T>>)
    requires img.Valid() && k < img.channels
    ensures after.Ok? <==> AsNdarray3(img).Ok?
    ensures after.Err? ==> after.panic == UnwrapFailed
    ensures after.Ok? ==> (after.value.Valid() && after.value.width == img.width &&
      after.value.height == img.height && after.value.channels == img.channels)
  {
    match AsNdarray3(img)
    case Err(e) => Err(e)
    case Ok(L) => Ok(Image(img.width, img.height, img.channels, Fill(img.raw, Plane(L, k), v)))
  }

  /** Sample k' of pixel (x, y) after filling channel k: `v` when k' is k, unchanged otherwise. */
  lemma FillChannelSample<T>(img: Image<T>, k: nat, v: T, x: nat, y: nat, k': nat)
    requires img.Valid() && k < img.channels
    requires x < img.width && y < img.height && k' < img.channels
    ensures FillChannel(img, k, v).Ok?
    ensures Sample(FillChannel(img, k, v).value, x, y, k') == if k' == k then v else Sample(img, x, y, k')
  {
    var L := AsNdarray3(img).value;
    var plane := Plane(L, k);
    var q := PixelSlot(img.width, img.channels, x, y, k');
    PixelSlotBound(img.width, img.height, img.channels, x, y, k');
    Touches2(plane, q);
    if k' == k {
      assert At2(plane, y, x) == At3(L, k, y, x) == q;
    } else {
      forall i: nat, j: nat | i < plane.shape[0] && j < plane.shape[1] ensures At2(plane, i, j) != q {
        assert At2(plane, i, j) == At3(L, k, i, j) == PixelSlot(img.width, img.channels, j, i, k);
        if At2(plane, i, j) == q {
          PixelSlotUnique(img.width, img.channels, j, i, k, x, y, k');
        }
      }
    }
  }

  /**
   * `as_ndarray3_mut().slice_mut(s![k, .., ..]).fill(v)`: channel k of every pixel becomes
   * `v` in the image and every other channel is unchanged.
   */
  lemma AsNdarray3MutFillChannel<T>(img: Image<T>, k: nat, v: T)
    requires img.Valid() && k < img.channels
    ensures var after := FillChannel(img, k, v);
      forall x: nat, y: nat, k': nat :: x < img.width && y < img.height && k' < img.channels ==>
        after.Ok? && Sample(after.value, x, y, k') == if k' == k then v else Sample(img, x, y, k')
  {
    forall x: nat, y: nat, k': nat | x < img.width && y < img.height && k' < img.channels
      ensures FillChannel(img, k, v).Ok? &&
        Sample(FillChannel(img, k, v).value, x, y, k') == if k' == k then v else Sample(img, x, y, k')
    {
      FillChannelSample(img, k, v, x, y, k');
    }
  }

  /** `RgbImage::new(0, 4)` has no pixels, yet `as_ndarray3()` and `into_ndarray3()` panic on it. */
  lemma EmptyRgbImagePanics()
    ensures AsNdarray3(New(0, 4, 3, 0)) == Err(UnwrapFailed)
    ensures IntoNdarray3(New(0, 4, 3, 0)) == Err(UnwrapFailed)
  {
  }

  /** `RgbImage::new(2, 4).into_ndarray3()` has dim (3, 4, 2), and `fill(255)` sets every element. */
  lemma IntoNdarray3Example()
    ensures var a := IntoNdarray3(New(2, 4, 3, 0)).value;
      a.Valid() && a.layout.shape == [3, 4, 2] &&
      forall k: nat, y: nat, x: nat :: k < 3 && y < 4 && x < 2 ==>
        Get3(Fill(a.data, a.layout, 255), a.layout, k, y, x) == 255
  {
    var a := IntoNdarray3(New(2, 4, 3, 0)).value;
    forall k: nat, y: nat, x: nat | k < 3 && y < 4 && x < 2
      ensures Get3(Fill(a.data, a.layout, 255), a.layout, k, y, x) == 255
    {
      FillReads3(a.data, a.layout, 255, k, y, x);
    }
  }

  /** `s![k, y, ..]` of `as_ndarray3()` reads channel k of the pixels of row y, left to right. */
  lemma AsNdarray3ChannelRow<T>(img: Image<T>, k: nat, y: nat)
    requires img.Valid() && k < img.channels && y < img.height
    ensures AsNdarray3(img).Ok? ==> var row := Row(Plane(AsNdarray3(img).value, k), y);
      FitsIn(row, |img.raw|) && |Iter1(img.raw, row)| == img.width &&
      forall x: nat :: x < img.width ==> Iter1(img.raw, row)[x] == Sample(img, x, y, k)
  {
    if AsNdarray3(img).Ok? {
      var L := AsNdarray3(img).value;
      var row := Row(Plane(L, k), y);
      assert FitsIn(row, |img.raw|) && row.shape[0] == img.width;
      forall x: nat | x < img.width ensures Iter1(img.raw, row)[x] == Sample(img, x, y, k) {
        ChannelRowAt(img, k, y, x);
      }
    }
  }

  /** Element x of `s![k, y, ..]` is sample k of pixel (x, y). */
  lemma ChannelRowAt<T>(img: Image<T>, k: nat, y: nat, x: nat)
    requires img.Valid() && k < img.channels && y < img.height && x < img.width
    ensures AsNdarray3(img).Ok?
    ensures var row := Row(Plane(AsNdarray3(img).value, k), y);
      FitsIn(row, |img.raw|) && x < |Iter1(img.raw, row)| && Iter1(img.raw, row)[x] == Sample(img, x, y, k)
  {
    var L := AsNdarray3(img).value;
    var row := Row(Plane(L, k), y);
    assert At1(row, x) == At2(Plane(L, k), y, x) == At3(L, k, y, x);
  }

  /**
   * `as_ndarray3().slice(s![k, y, ..]).sum()`: channel k of the pixels of row y added up
   * from left to right, or the view's panic.
   */
  function ChannelRowSum(img: Image<int>, k: nat, y: nat): (r: Result<int>)
    requires img.Valid() && k < img.channels && y < img.height
    ensures r.Ok? <==> AsNdarray3(img).Ok?
    ensures r.Err? ==> r.panic == UnwrapFailed
    ensures r.Ok? ==> r.value == Sum(seq(img.width, x requires 0 <= x < img.width => Sample(img, x, y, k)))
  {
    AsNdarray3ChannelRow(img, k, y);
    match AsNdarray3(img)
    case Err(e) => Err(e)
    case Ok(L) =>
      assert Iter1(img.raw, Row(Plane(L, k), y)) == seq(img.width, x requires 0 <= x < img.width => Sample(img, x, y, k));
      Ok(Sum(Iter1(img.raw, Row(Plane(L, k), y))))
  }

  /** In an image two pixels wide, `s![k, 0, ..]` sums channel k of the two pixels of row 0. */
  lemma ChannelRowSumPair(img: Image<int>, k: nat)
    requires img.Valid() && img.width == 2 && img.height > 0 && k < img.channels
    ensures ChannelRowSum(img, k, 0) == Ok(Sample(img, 0, 0, k) + Sample(img, 1, 0, k))
  {
    SumPair(seq(img.width, x requires 0 <= x < img.width => Sample(img, x, 0, k)));
  }

  /** `RgbImage::new(2, 4)` with pixel (1, 0) set to `Rgb([0, 255, 0])`: only that pixel is green. */
  function GreenPixelImage(): (img: Image<int>)
    ensures img.Valid() && img.width == 2 && img.height == 4 && img.channels == 3
    ensures Sample(img, 0, 0, 0) == 0 && Sample(img, 1, 0, 0) == 0
    ensures Sample(img, 0, 0, 1) == 0 && Sample(img, 1, 0, 1) == 255
  {
    PutPixel(New(2, 4, 3, 0), 1, 0, [0, 255, 0])
  }

  /**
   * On that image `as_ndarray3()` has dim (3, 4, 2), `s![1, 0, ..]` sums to 255 and
   * `s![0, 0, ..]` sums to 0.
   */
  lemma AsNdarray3Example()
    ensures AsNdarray3(GreenPixelImage()).value.shape == [3, 4, 2]
    ensures ChannelRowSum(GreenPixelImage(), 1, 0) == Ok(255) && ChannelRowSum(GreenPixelImage(), 0, 0) == Ok(0)
  {
    ChannelRowSumPair(GreenPixelImage(), 1);
    ChannelRowSumPair(GreenPixelImage(), 0);
  }

  /** Filling channel 2 of `as_ndarray3_mut()` on a black RGB image makes pixel (0, 0) blue. */
  lemma AsNdarray3MutExample(img: Image<int>)
    requires img == New(2, 4, 3, 0)
    ensures FillChannel(img, 2, 255).Ok? && Pixel(FillChannel(img, 2, 255).value, 0, 0) == [0, 0, 255]
  {
    FillChannelSample(img, 2, 255, 0, 0, 0);
    FillChannelSample(img, 2, 255, 0, 0, 1);
    FillChannelSample(img, 2, 255, 0, 0, 2);
  }
}
