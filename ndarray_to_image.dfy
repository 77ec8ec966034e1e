/**
 * ndarray arrays handed to the image crate (src/toimage/ndarray_impl.rs).
 *
 * A (channels, height, width) `Array3<u8>` becomes an RGBA or RGB image after an
 * assertion on the channel count, and a (height, width) `Array2<u8>` a gray image; the
 * width is the last axis, the height the one before it. The array's vector is handed to
 * `ImageBuffer::from_raw` as it lies in memory, which `unwrap()`s the size check.
 */
module NdarrayToImage {
  import opened Outcomes
  import opened Arith
  import opened Layouts
  import opened Images
  import opened ImageToNdarray

  const RGBA_CHANNELS: nat := 4
  const RGB_CHANNELS: nat := 3

  /**
   * The body shared by `into_image_rgba` and `into_image_rgb`: `let (c, h, w) = dim()`,
   * `assert_eq!(c, channels)`, then `from_raw(w, h, into_raw_vec()).unwrap()`.
   * The `as u32` casts are assumed not to truncate.
   */
  function IntoImage3<T>(a: Array<T>, channels: nat): (r: Result<Image<T>>)
    requires Rank(a.layout, 3) && a.layout.shape[1] < DIM_LIMIT && a.layout.shape[2] < DIM_LIMIT
    ensures var c, h, w := a.layout.shape[0], a.layout.shape[1], a.layout.shape[2];
      (r == Err(ChannelCountMismatch(c, channels)) <==> c != channels) &&
      (r == Err(UnwrapFailed) <==> c == channels && w * h * channels > |a.data|) &&
      (r.Ok? ==> r.value.Valid() && r.value.width == w && r.value.height == h &&
                 r.value.channels == channels && r.value.raw == a.data)
  {
    var c, h, w := a.layout.shape[0], a.layout.shape[1], a.layout.shape[2];
    if c != channels then Err(ChannelCountMismatch(c, channels))
    else
      match FromRaw(w, h, channels, a.data)
      case None => Err(UnwrapFailed)
      case Some(img) => Ok(img)
  }

  /** `into_image_rgba`: panics unless the channel axis has length 4. */
  function IntoImageRgba<T>(a: Array<T>): (r: Result<Image<T>>)
    requires Rank(a.layout, 3) && a.layout.shape[1] < DIM_LIMIT && a.layout.shape[2] < DIM_LIMIT
    ensures r == Err(ChannelCountMismatch(a.layout.shape[0], RGBA_CHANNELS)) <==> a.layout.shape[0] != RGBA_CHANNELS
    ensures r.Ok? ==> r.value.channels == RGBA_CHANNELS
    ensures r.Ok? ==> r.value.width == a.layout.shape[2] && r.value.height == a.layout.shape[1]
  {
    IntoImage3(a, RGBA_CHANNELS)
  }

  /** `into_image_rgb`: panics unless the channel axis has length 3. */
  function IntoImageRgb<T>(a: Array<T>): (r: Result<Image<T>>)
    requires Rank(a.layout, 3) && a.layout.shape[1] < DIM_LIMIT && a.layout.shape[2] < DIM_LIMIT
    ensures r == Err(ChannelCountMismatch(a.layout.shape[0], RGB_CHANNELS)) <==> a.layout.shape[0] != RGB_CHANNELS
    ensures r.Ok? ==> r.value.channels == RGB_CHANNELS
    ensures r.Ok? ==> r.value.width == a.layout.shape[2] && r.value.height == a.layout.shape[1]
  {
    IntoImage3(a, RGB_CHANNELS)
  }

  /**
   * `into_image_gray`: `let (h, w) = dim()`, then `from_raw(w, h, into_raw_vec()).unwrap()`
   * with one sample per pixel; no assertion precedes it.
   */
  function IntoImageGray<T>(a: Array<T>): (r: Result<Image<T>>)
    requires Rank(a.layout, 2) && a.layout.shape[0] < DIM_LIMIT && a.layout.shape[1] < DIM_LIMIT
    ensures r.Err? <==> a.layout.shape[1] * a.layout.shape[0] > |a.data|
    ensures r.Err? ==> r.panic == UnwrapFailed
    ensures r.Ok? ==> r.value.Valid() && r.value.raw == a.data && r.value.channels == 1
    ensures r.Ok? ==> r.value.width == a.layout.shape[1] && r.value.height == a.layout.shape[0]
  {
    var h, w := a.layout.shape[0], a.layout.shape[1];
    match FromRaw(w, h, 1, a.data)
    case None => Err(UnwrapFailed)
    case Some(img) => Ok(img)
  }

  // ---------------------------------------------------------------------------
  // When the raw handover is right: arrays laid out as images are

  /**
   * For an array whose layout is the image's own interleaved one (channel stride 1, row
   * stride channels * width, column stride channels), sample k of pixel (x, y) of the
   * image is element [k, y, x] of the array.
   */
  lemma IntoImage3Interleaved<T>(a: Array<T>, channels: nat)
    requires a.Valid() && Rank(a.layout, 3)
    requires a.layout.shape[1] < DIM_LIMIT && a.layout.shape[2] < DIM_LIMIT
    requires a.layout.shape[0] == channels && a.layout.offset == 0
    requires a.layout.strides == [1, channels * a.layout.shape[2], channels]
    ensures var r := IntoImage3(a, channels);
      r.Ok? && forall k: nat, y: nat, x: nat :: k < channels && y < r.value.height && x < r.value.width ==>
        Sample(r.value, x, y, k) == Get3(a.data, a.layout, k, y, x)
  {
    var h, w := a.layout.shape[1], a.layout.shape[2];
    Fits3(a.layout, |a.data|);
    if channels > 0 && h > 0 && w > 0 {
      PixelSlotBound(w, h, channels, w - 1, h - 1, channels - 1);
      assert At3(a.layout, channels - 1, h - 1, w - 1) == PixelSlot(w, channels, w - 1, h - 1, channels - 1);
      assert PixelSlot(w, channels, w - 1, h - 1, channels - 1) == w * h * channels - 1 by {
        assert ((h - 1) * w + (w - 1)) * channels == (h * w) * channels - channels;
        assert (h * w) * channels == w * h * channels;
      }
    }
    var r := IntoImage3(a, channels);
    forall k: nat, y: nat, x: nat | k < channels && y < h && x < w
      ensures Sample(r.value, x, y, k) == Get3(a.data, a.layout, k, y, x)
    {
      assert y * (channels * w) == (y * w) * channels;
      assert At3(a.layout, k, y, x) == PixelSlot(w, channels, x, y, k);
    }
  }

  /**
   * An RGBA image taken to ndarray by `into_ndarray3` and back by `into_image_rgba` is
   * unchanged, whenever `into_ndarray3` accepts it (every image with pixels).
   */
  lemma RgbaRoundTrip<T>(img: Image<T>)
    requires img.Valid() && img.channels == RGBA_CHANNELS
    ensures IntoNdarray3(img).Ok? ==> IntoImageRgba(IntoNdarray3(img).value) == Ok(img)
  {
  }

  /** The same round trip for RGB images. */
  lemma RgbRoundTrip<T>(img: Image<T>)
    requires img.Valid() && img.channels == RGB_CHANNELS
    ensures IntoNdarray3(img).Ok? ==> IntoImageRgb(IntoNdarray3(img).value) == Ok(img)
  {
  }

  /**
   * A gray image taken to ndarray by `into_ndarray2` and back by `into_image_gray` is
   * unchanged, whenever `into_ndarray2` accepts it.
   */
  lemma GrayRoundTrip<T>(img: Image<T>)
    requires img.Valid() && img.channels == 1
    ensures IntoNdarray2(img).Ok? ==> IntoImageGray(IntoNdarray2(img).value) == Ok(img)
  {
    assert img.width * img.height * 1 == img.width * img.height;
  }

  /** The test image: pixel (x, y) is (v, v, v, 255 - v) with v = 3 * y + x. */
  function AlphaPattern(x: nat, y: nat, k: nat): int {
    var v := y * 3 + x;
    if k < 3 then v else 255 - v
  }

  /**
   * `test_img_alpha`: the 3 x 3 RGBA test image becomes a (4, 3, 3) array, and after
   * `into_image_rgba` channel k of pixel (x, y) equals element [k, y, x] of the array.
   */
  lemma ImageAlphaRoundTrip()
    ensures var img := FromFn(3, 3, 4, AlphaPattern);
      var arr := IntoNdarray3(img).value;
      var back := IntoImageRgba(arr);
      arr.layout.shape == [4, 3, 3] && back.Ok? && back.value.width == 3 && back.value.height == 3 &&
      forall y: nat, x: nat, k: nat :: y < 3 && x < 3 && k < 4 ==>
        Get3(arr.data, arr.layout, k, y, x) == Sample(back.value, x, y, k) == AlphaPattern(x, y, k)
  {
    var img := FromFn(3, 3, 4, AlphaPattern);
    RgbaRoundTrip(img);
  }

  // ---------------------------------------------------------------------------
  // When it is not: arrays in ndarray's standard (row-major) layout

  /**
   * A standard-layout (4, 1, 2) array holding 1, ..., 8 has channel 1 of pixel (0, 0)
   * equal to 3 (element [1, 0, 0]), but `into_image_rgba` hands its vector over
   * unchanged, so that sample of the image is 2: planar data is read as interleaved.
   */
  lemma IntoImageRgbaPlanarCounterexample(a: Array<int>)
    requires |a.data| == 8 && forall p :: 0 <= p < 8 ==> a.data[p] == p + 1
    requires Rank(a.layout, 3) && a.layout.offset == 0
    requires a.layout.shape[0] == 4 && a.layout.shape[1] == 1 && a.layout.shape[2] == 2
    requires a.layout.strides[0] == 2 && a.layout.strides[1] == 2 && a.layout.strides[2] == 1
    ensures a.Valid() && IntoImageRgba(a).Ok?
    ensures Get3(a.data, a.layout, 1, 0, 0) == 3 && Sample(IntoImageRgba(a).value, 0, 0, 1) == 2
  {
    assert a.Valid() by {
      Fits3(a.layout, 8);
      forall k: nat, y: nat, x: nat | k < 4 && y < 1 && x < 2 ensures 0 <= At3(a.layout, k, y, x) < 8 {
        assert y == 0 && At3(a.layout, k, y, x) == 2 * k + x;
      }
    }
    assert At3(a.layout, 1, 0, 0) == 2;
    assert PixelSlot(2, 4, 0, 0, 1) == 1;
  }

  /**
   * The evidently intended conversion: the samples copied out in image order, reading
   * element [k, y, x] for sample k of pixel (x, y) whatever the array's strides.
   */
  function LogicalImage<T>(a: Array<T>): (img: Image<T>)
    requires a.Valid() && Rank(a.layout, 3) && a.layout.shape[1] < DIM_LIMIT && a.layout.shape[2] < DIM_LIMIT
    ensures img.Valid() && img.channels == a.layout.shape[0]
    ensures img.height == a.layout.shape[1] && img.width == a.layout.shape[2]
    ensures |img.raw| == img.width * img.height * img.channels
    ensures forall k: nat, y: nat, x: nat :: k < img.channels && y < img.height && x < img.width ==>
      Sample(img, x, y, k) == Get3(a.data, a.layout, k, y, x)
  {
    var c, h, w := a.layout.shape[0], a.layout.shape[1], a.layout.shape[2];
    var img := Image(w, h, c, seq(w * h * c, q requires 0 <= q < w * h * c =>
      var p := SlotPixel(w, h, c, q); Get3(a.data, a.layout, p.k, p.y, p.x)));
    assert forall k: nat, y: nat, x: nat :: k < c && y < h && x < w ==>
      Sample(img, x, y, k) == Get3(a.data, a.layout, k, y, x) by {
      forall k: nat, y: nat, x: nat | k < c && y < h && x < w
        ensures Sample(img, x, y, k) == Get3(a.data, a.layout, k, y, x)
      {
        SlotPixelOf(w, h, c, x, y, k);
      }
    }
    img
  }

  /** The corrected `into_image_rgba`: the same channel assertion, then the logical copy. */
  function IntoImageRgbaLogical<T>(a: Array<T>): (r: Result<Image<T>>)
    requires a.Valid() && Rank(a.layout, 3) && a.layout.shape[1] < DIM_LIMIT && a.layout.shape[2] < DIM_LIMIT
    ensures r.Err? <==> a.layout.shape[0] != RGBA_CHANNELS
    ensures r.Err? ==> r.panic == ChannelCountMismatch(a.layout.shape[0], RGBA_CHANNELS)
    ensures r.Ok? ==> r.value.Valid() && r.value.channels == RGBA_CHANNELS
    ensures r.Ok? ==> r.value.width == a.layout.shape[2] && r.value.height == a.layout.shape[1]
    ensures r.Ok? ==> forall k: nat, y: nat, x: nat :: k < RGBA_CHANNELS && y < r.value.height && x < r.value.width ==>
      Sample(r.value, x, y, k) == Get3(a.data, a.layout, k, y, x)
  {
    if a.layout.shape[0] != RGBA_CHANNELS then Err(ChannelCountMismatch(a.layout.shape[0], RGBA_CHANNELS))
    else Ok(LogicalImage(a))
  }

  /**
   * On arrays that came from an image the corrected conversion agrees with the one as
   * written, pixel for pixel.
   */
  lemma IntoImageRgbaLogicalAgrees<T>(img: Image<T>)
    requires img.Valid() && img.channels == RGBA_CHANNELS
    ensures IntoNdarray3(img).Ok? ==> var a := IntoNdarray3(img).value;
      var fixed, written := IntoImageRgbaLogical(a), IntoImageRgba(a);
      fixed.Ok? && written.Ok? && fixed.value.width == written.value.width &&
      fixed.value.height == written.value.height &&
      forall k: nat, y: nat, x: nat :: k < RGBA_CHANNELS && y < img.height && x < img.width ==>
        Sample(fixed.value, x, y, k) == Sample(written.value, x, y, k) == Sample(img, x, y, k)
  {
    RgbaRoundTrip(img);
  }

  /** On the planar counterexample the corrected conversion reads element [1, 0, 0]. */
  lemma IntoImageRgbaLogicalPlanar(a: Array<int>)
    requires |a.data| == 8 && forall p :: 0 <= p < 8 ==> a.data[p] == p + 1
    requires Rank(a.layout, 3) && a.layout.offset == 0
    requires a.layout.shape[0] == 4 && a.layout.shape[1] == 1 && a.layout.shape[2] == 2
    requires a.layout.strides[0] == 2 && a.layout.strides[1] == 2 && a.layout.strides[2] == 1
    ensures a.Valid() && IntoImageRgbaLogical(a).Ok? && Sample(IntoImageRgbaLogical(a).value, 0, 0, 1) == 3
  {
    IntoImageRgbaPlanarCounterexample(a);
  }
}
