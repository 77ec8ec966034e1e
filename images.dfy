/**
 * The image crate's pixel buffers as the conversions see them: `width` x `height` pixels
 * of `channels` samples each (1 for Luma, 3 for Rgb, 4 for Rgba), kept in one flat vector.
 *
 * The model ASSUMES the sample layout of every buffer is packed, row-major and
 * interleaved: sample k of pixel (x, y) is in slot (y * width + x) * channels + k, so the
 * channel stride is 1, the width stride is `channels` and the height stride is
 * `channels * width`. The conversions only ever read the layout through `sample_layout()`.
 */
module Images {
  import opened Outcomes
  import opened Arith

  /** Image dimensions are `u32`. */
  const DIM_LIMIT: nat := 0x1_0000_0000

  /** `ImageBuffer<P, Vec<P::Subpixel>>`; `channels` is `P::CHANNEL_COUNT`. */
  datatype Image<T> = Image(width: nat, height: nat, channels: nat, raw: seq<T>) {
    /** The buffer's own invariant: dimensions fit `u32` and the vector holds every sample. */
    ghost predicate Valid() {
      width < DIM_LIMIT && height < DIM_LIMIT && width * height * channels <= |raw|
    }
  }

  /** The slot of sample k of pixel (x, y). */
  function PixelSlot(w: nat, c: nat, x: nat, y: nat, k: nat): nat {
    (y * w + x) * c + k
  }

  lemma PixelSlotBound(w: nat, h: nat, c: nat, x: nat, y: nat, k: nat)
    requires x < w && y < h && k < c
    ensures PixelSlot(w, c, x, y, k) < w * h * c
  {
    PackedBound(y, x, h, w);
    PackedBound(y * w + x, k, h * w, c);
    assert h * w * c == w * h * c;
  }

  /** Distinct samples of distinct pixels occupy distinct slots. */
  lemma PixelSlotUnique(w: nat, c: nat, x: nat, y: nat, k: nat, x': nat, y': nat, k': nat)
    requires x < w && x' < w && k < c && k' < c
    requires PixelSlot(w, c, x, y, k) == PixelSlot(w, c, x', y', k')
    ensures x == x' && y == y' && k == k'
  {
    PackedUnique(y * w + x, k, y' * w + x', k', c);
    PackedUnique(y, x, y', x', w);
  }

  /** A slot inside pixel p's run of samples belongs to no other pixel. */
  lemma PixelRun(c: nat, p: nat, q: nat, k: nat)
    requires k < c && p * c <= q * c + k < p * c + c
    ensures p == q
  {
    PackedUnique(q, k, p, q * c + k - p * c, c);
  }

  /** A pixel and one of its channels. */
  datatype PixelIndex = PixelIndex(x: nat, y: nat, k: nat)

  /** The pixel and channel whose sample sits in slot q of a packed w x h x c buffer. */
  function SlotPixel(w: nat, h: nat, c: nat, q: nat): (p: PixelIndex)
    requires q < w * h * c
    ensures p.x < w && p.y < h && p.k < c && PixelSlot(w, c, p.x, p.y, p.k) == q
  {
    Unpack(q, w * h, c);
    assert q / c < h * w;
    Unpack(q / c, h, w);
    PixelIndex((q / c) % w, (q / c) / w, q % c)
  }

  /** `SlotPixel` inverts `PixelSlot`. */
  lemma SlotPixelOf(w: nat, h: nat, c: nat, x: nat, y: nat, k: nat)
    requires x < w && y < h && k < c
    ensures PixelSlot(w, c, x, y, k) < w * h * c
    ensures SlotPixel(w, h, c, PixelSlot(w, c, x, y, k)) == PixelIndex(x, y, k)
  {
    PixelSlotBound(w, h, c, x, y, k);
    var p := SlotPixel(w, h, c, PixelSlot(w, c, x, y, k));
    PixelSlotUnique(w, c, p.x, p.y, p.k, x, y, k);
  }

  /**
   * `SampleLayout`: for each of the channel, width and height axes, the extent and the
   * distance in samples between neighbours along it.
   */
  datatype SampleLayout = SampleLayout(
    channels: nat, channelStride: nat,
    width: nat, widthStride: nat,
    height: nat, heightStride: nat)

  /** `sample_layout()` under the packed, row-major, interleaved assumption. */
  function SampleLayoutOf<T>(img: Image<T>): (s: SampleLayout)
    ensures s.channels == img.channels && s.width == img.width && s.height == img.height
    ensures forall x: nat, y: nat, k: nat ::
      k * s.channelStride + y * s.heightStride + x * s.widthStride == PixelSlot(img.width, img.channels, x, y, k)
  {
    var s := SampleLayout(img.channels, 1, img.width, img.channels, img.height, img.channels * img.width);
    assert forall x: nat, y: nat, k: nat ::
      k * s.channelStride + y * s.heightStride + x * s.widthStride == PixelSlot(img.width, img.channels, x, y, k) by {
      forall x: nat, y: nat, k: nat
        ensures k * s.channelStride + y * s.heightStride + x * s.widthStride == PixelSlot(img.width, img.channels, x, y, k)
      {
        assert y * (img.channels * img.width) == (y * img.width) * img.channels;
        assert (y * img.width + x) * img.channels == (y * img.width) * img.channels + x * img.channels;
      }
    }
    s
  }

  /** `get_pixel(x, y).0[k]`. */
  function Sample<T>(img: Image<T>, x: nat, y: nat, k: nat): T
    requires img.Valid() && x < img.width && y < img.height && k < img.channels
  {
    assert PixelSlot(img.width, img.channels, x, y, k) < |img.raw| by {
      PixelSlotBound(img.width, img.height, img.channels, x, y, k);
    }
    img.raw[PixelSlot(img.width, img.channels, x, y, k)]
  }

  /**
   * `get_pixel` reads sample k of pixel (x, y) from slot q, the slot that `sample_layout()`
   * assigns it.
   */
  lemma SampleAtLayout<T>(img: Image<T>, x: nat, y: nat, k: nat, q: nat)
    requires img.Valid() && x < img.width && y < img.height && k < img.channels
    requires var s := SampleLayoutOf(img); q == k * s.channelStride + y * s.heightStride + x * s.widthStride
    ensures q < |img.raw| && Sample(img, x, y, k) == img.raw[q]
  {
    PixelSlotBound(img.width, img.height, img.channels, x, y, k);
  }

  /** `get_pixel(x, y).0`: the samples of one pixel. */
  function Pixel<T>(img: Image<T>, x: nat, y: nat): (p: seq<T>)
    requires img.Valid() && x < img.width && y < img.height
    ensures |p| == img.channels && forall k :: 0 <= k < |p| ==> p[k] == Sample(img, x, y, k)
  {
    seq(img.channels, k requires 0 <= k < img.channels => Sample(img, x, y, k))
  }

  /** `raw` with the run of |p| slots from `base` replaced by `p`. */
  function PutRun<T>(raw: seq<T>, base: nat, p: seq<T>): (r: seq<T>)
    ensures |r| == |raw|
    ensures forall q :: 0 <= q < |raw| ==> r[q] == if base <= q < base + |p| then p[q - base] else raw[q]
  {
    seq(|raw|, q requires 0 <= q < |raw| => if base <= q < base + |p| then p[q - base] else raw[q])
  }

  /** The samples of pixel (x, y) are exactly the run of `c` slots from its sample 0. */
  lemma PixelInRun(w: nat, c: nat, x: nat, y: nat, x': nat, y': nat, k: nat)
    requires x < w && x' < w && k < c
    ensures var base, q := PixelSlot(w, c, x, y, 0), PixelSlot(w, c, x', y', k);
      (base <= q < base + c <==> x' == x && y' == y) && (x' == x && y' == y ==> q - base == k)
  {
    var base, q := PixelSlot(w, c, x, y, 0), PixelSlot(w, c, x', y', k);
    if base <= q < base + c {
      PixelRun(c, y * w + x, y' * w + x', k);
      PackedUnique(y, x, y', x', w);
    }
  }

  /**
   * `img[(x, y)] = P(p)`: pixel (x, y) takes the samples `p`, every other sample is
   * unchanged.
   */
  function PutPixel<T>(img: Image<T>, x: nat, y: nat, p: seq<T>): (r: Image<T>)
    requires img.Valid() && x < img.width && y < img.height && |p| == img.channels
    ensures r.Valid() && r.width == img.width && r.height == img.height && r.channels == img.channels
    ensures forall x': nat, y': nat, k: nat :: x' < r.width && y' < r.height && k < r.channels ==>
      Sample(r, x', y', k) == if x' == x && y' == y then p[k] else Sample(img, x', y', k)
  {
    var r := Image(img.width, img.height, img.channels, PutRun(img.raw, PixelSlot(img.width, img.channels, x, y, 0), p));
    assert forall x': nat, y': nat, k: nat :: x' < r.width && y' < r.height && k < r.channels ==>
      Sample(r, x', y', k) == if x' == x && y' == y then p[k] else Sample(img, x', y', k) by {
      forall x': nat, y': nat, k: nat | x' < r.width && y' < r.height && k < r.channels
        ensures Sample(r, x', y', k) == if x' == x && y' == y then p[k] else Sample(img, x', y', k)
      {
        PixelSlotBound(img.width, img.height, img.channels, x', y', k);
        PixelInRun(img.width, img.channels, x, y, x', y', k);
      }
    }
    r
  }

  /** `ImageBuffer::new(w, h)`: every sample is the subpixel type's zero. */
  function New<T>(w: nat, h: nat, c: nat, zero: T): (r: Image<T>)
    requires w < DIM_LIMIT && h < DIM_LIMIT
    ensures r.Valid() && r.width == w && r.height == h && r.channels == c && |r.raw| == w * h * c
    ensures forall x: nat, y: nat, k: nat :: x < w && y < h && k < c ==> Sample(r, x, y, k) == zero
  {
    var r := Image(w, h, c, seq(w * h * c, _ => zero));
    assert forall x: nat, y: nat, k: nat :: x < w && y < h && k < c ==> Sample(r, x, y, k) == zero by {
      forall x: nat, y: nat, k: nat | x < w && y < h && k < c ensures Sample(r, x, y, k) == zero {
        PixelSlotBound(w, h, c, x, y, k);
      }
    }
    r
  }

  /**
   * `ImageBuffer::from_fn(w, h, f)`: sample k of pixel (x, y) is sample k of `f(x, y)`,
   * written here as `f(x, y, k)`.
   */
  function FromFn<T>(w: nat, h: nat, c: nat, f: (nat, nat, nat) -> T): (r: Image<T>)
    requires w < DIM_LIMIT && h < DIM_LIMIT
    ensures r.Valid() && r.width == w && r.height == h && r.channels == c && |r.raw| == w * h * c
    ensures forall x: nat, y: nat, k: nat :: x < w && y < h && k < c ==> Sample(r, x, y, k) == f(x, y, k)
  {
    var r := Image(w, h, c, seq(w * h * c, q requires 0 <= q < w * h * c =>
      var p := SlotPixel(w, h, c, q); f(p.x, p.y, p.k)));
    assert forall x: nat, y: nat, k: nat :: x < w && y < h && k < c ==> Sample(r, x, y, k) == f(x, y, k) by {
      forall x: nat, y: nat, k: nat | x < w && y < h && k < c ensures Sample(r, x, y, k) == f(x, y, k) {
        SlotPixelOf(w, h, c, x, y, k);
      }
    }
    r
  }

  /**
   * `ImageBuffer::from_raw(w, h, buf)`: `None` when `buf` is too short for w x h pixels,
   * otherwise the image over `buf` itself.
   */
  function FromRaw<T>(w: nat, h: nat, c: nat, buf: seq<T>): (r: Option<Image<T>>)
    requires w < DIM_LIMIT && h < DIM_LIMIT
    ensures r.Some? <==> w * h * c <= |buf|
    ensures r.Some? ==> r.value.Valid() && r.value.raw == buf
    ensures r.Some? ==> r.value.width == w && r.value.height == h && r.value.channels == c
  {
    if w * h * c <= |buf| then Some(Image(w, h, c, buf)) else None
  }
}
