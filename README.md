# nshare: shape and stride mapping between ndarray, nalgebra and image

nshare converts between three Rust crates:

- ndarray arrays and array views;
- nalgebra vectors, matrices and matrix views;
- image pixel buffers.

Most conversions copy nothing. They reinterpret the same memory under another shape and
another set of strides. The owned conversions to ndarray and to image move the owned
vector into the other type. The owned conversions to nalgebra copy every element into a
new vector, in iteration order.

This project models each conversion as a function on layout descriptions:

- an ndarray layout is an offset, a shape and signed strides (`Layouts.Layout`);
- a nalgebra view is an offset, row and column counts, and row and column strides
  (`Nalgebra.MatrixView`);
- an image is its width, height, channel count and flat sample vector (`Images.Image`).

The memory itself is a `seq`. Reading element `(i, j)` of a layout over a buffer means
reading the buffer at the address the strides give. Filling a view writes every slot the
view reaches (`Layouts.Fill`).

The proofs state, for every conversion:

- which element of the source lands at which index of the result;
- that a result built from a value that fits its buffer also fits it, except for the 1-D
  view conversion to nalgebra as written: a broadcast (stride 0) view fits its buffer but
  its nalgebra view does not (see Findings);
- when the conversion panics;
- how it relates to the conversion in the opposite direction.

The doc-test examples in the source are restated as lemmas on concrete values.

ndarray checks an empty layout too: a shape with an extent 0 is accepted only when its
largest offset, counting the empty axes as 0, is at most the buffer length. The image
conversions hit this on some empty images, such as `GrayImage::new(4, 0)` and
`RgbImage::new(0, 4)`, where the `unwrap()` panics. The model states exactly which images
convert, and the properties of the converted arrays hold whenever the conversion succeeds.

The modules follow the source:

- `NalgebraToNdarray`: `src/tondarray/nalgebra_impl.rs`;
- `NdarrayToNalgebra`: `src/tonalgebra/ndarray_impl.rs`;
- `ImageToNdarray`: `src/tondarray/image_impl.rs`;
- `NdarrayToImage`: `src/toimage/ndarray_impl.rs`.

`Layouts`, `Nalgebra` and `Images` model only the parts of the three libraries that
these conversions call. `Arith` holds the index arithmetic. `Outcomes` holds `Option`, the
panics and `Result`. A panic (`expect`, `unwrap`, `assert_eq!`) is the `Err` case of
`Result`, and its message is a constructor of `Panic`.

An image buffer's sample layout is taken to be packed, row-major and interleaved:

- the channel stride is 1;
- the width stride is the channel count;
- the height stride is the channel count times the width.

This is what `ImageBuffer::sample_layout` reports for the buffers the conversions accept.
`Images.SampleLayoutOf` states it.

## Model

| member | source | states |
|---|---|---|
| Nalgebra.RowsWithStep | src/tondarray/nalgebra_impl.rs:100 | selecting `count` rows starting at `start`, one row every `step + 1` rows, has `count` rows and the same columns, and fits every buffer the matrix fits |
| Nalgebra.RowsWithStepSlot | src/tondarray/nalgebra_impl.rs:100 | entry (i, j) of the selection is stored where entry (start + i * (step + 1), j) of the matrix is |
| Nalgebra.Storage | src/tondarray/nalgebra_impl.rs:256-262 | an owned dynamic matrix keeps entry (i, j) at slot i + j * nrows (column-major), fits its vector, and no two entries share a slot |
| Nalgebra.AtStorage | src/tondarray/nalgebra_impl.rs:256-262 | indexing an owned matrix at (i, j) reads the entry its storage view holds at (i, j) |
| Nalgebra.New4 | src/tondarray/nalgebra_impl.rs:123-128 | `Matrix4::new` takes its sixteen arguments row by row: entry (i, j) is argument 4 * i + j |
| Nalgebra.VectorStorage | src/tondarray/nalgebra_impl.rs:16-18 | a vector keeps entry k at slot k and fits its vector |
| Layouts.FromShapeStrides | src/tondarray/image_impl.rs:39 | `from_shape` with explicit strides accepts a layout with elements exactly when every element lies inside the buffer, and an empty layout exactly when its largest offset, counting empty axes as 0, is at most the buffer length; an accepted layout fits the buffer |
| Layouts.FromShapeStridesEmptyRefused | src/tondarray/image_impl.rs:39 | the empty (0, 4) layout with strides (4, 1) fits an empty buffer, since it has no element, yet `from_shape` refuses it |
| Layouts.Get1Addr | src/tondarray/nalgebra_impl.rs:20 | ndarray's indexing rule in one dimension: element i is the buffer slot at the general address offset + i * stride of the valid index [i], and that slot lies in the buffer |
| Layouts.Get2Addr | src/tondarray/nalgebra_impl.rs:130 | ndarray's indexing rule in two dimensions: element (i, j) is the buffer slot at the general address offset + i * stride0 + j * stride1 of the valid index (i, j), and that slot lies in the buffer |
| Layouts.Get3Addr | src/toimage/ndarray_impl.rs:60-63 | ndarray's indexing rule in three dimensions, as `arr[[k, y, x]]` uses it: element (i, j, k) is the buffer slot at the general address of the valid index (i, j, k), and that slot lies in the buffer |
| Layouts.Iter1 | src/tondarray/nalgebra_impl.rs:20 | `iter()` on a 1-D layout yields as many elements as its length, element k in position k |
| Layouts.Iter2 | src/tonalgebra/ndarray_impl.rs:185 | `iter()` on a 2-D layout yields nrows * ncols elements |
| Layouts.Iter2At | src/tonalgebra/ndarray_impl.rs:185 | `iter()` on a 2-D layout yields element (i, j) in position i * ncols + j: row by row, whatever the strides |
| Layouts.Sum | src/tondarray/image_impl.rs:54 | `sum()` of no elements is 0, and summing a sequence adds its last element to the sum of the rest |
| Layouts.Fill | src/tondarray/image_impl.rs:19 | `fill(x)` keeps the buffer's length, writes x to every slot the view reaches and leaves every other slot unchanged |
| Layouts.FromShapeVec | src/tondarray/nalgebra_impl.rs:247 | `from_shape_vec` succeeds exactly when the shape's size is the vector's length, and then gives C-order strides |
| Layouts.Row | src/tondarray/nalgebra_impl.rs:130 | `s![i, ..]` of a 2-D layout is the 1-D layout whose element j is element (i, j), and it fits wherever the matrix fits |
| Layouts.Column | src/tondarray/nalgebra_impl.rs:264 | `s![.., j]` of a 2-D layout is the 1-D layout whose element i is element (i, j) |
| Layouts.Plane | src/tondarray/image_impl.rs:188 | `s![c, .., ..]` of a 3-D layout is the 2-D layout whose element (i, j) is element (c, i, j) |
| Layouts.Transposed | src/tonalgebra/ndarray_impl.rs:99 | `t()` and `reversed_axes()` swap the axes: element (i, j) of the result is element (j, i), and fitting a buffer is kept |
| Layouts.Touches1 | src/tondarray/nalgebra_impl.rs:48 | a 1-D view reaches slot p exactly when p is the address of one of its elements |
| Layouts.Touches2 | src/tondarray/nalgebra_impl.rs:155 | a 2-D view reaches slot p exactly when p is the address of one of its elements |
| Layouts.Touches3 | src/tondarray/image_impl.rs:120 | a 3-D view reaches slot p exactly when p is the address of one of its elements |
| Layouts.FillReads2 | src/tondarray/image_impl.rs:19 | after `fill(x)` on a 2-D view, every element of the view reads x |
| Layouts.FillReads3 | src/tondarray/image_impl.rs:120 | after `fill(x)` on a 3-D view, every element of the view reads x |
| Layouts.Iter2RowMajor | src/tondarray/image_impl.rs:39 | iterating a C-order 2-D array visits its buffer in storage order |
| Images.SampleLayoutOf | src/tondarray/image_impl.rs:30-37 | the channel, width and height strides put sample k of pixel (x, y) at slot (y * width + x) * channels + k |
| Images.SampleAtLayout | src/toimage/ndarray_impl.rs:65 | `get_pixel(x, y).0[k]` reads the slot k * channel stride + y * height stride + x * width stride of the sample vector, which lies inside it |
| Images.Pixel | src/toimage/ndarray_impl.rs:65 | `get_pixel(x, y).0` holds one sample per channel, sample k of pixel (x, y) in position k |
| Images.PutPixel | src/tondarray/image_impl.rs:49 | `img[(x, y)] = P(p)` gives pixel (x, y) the samples p and leaves every other sample and the dimensions unchanged |
| Images.New | src/tondarray/image_impl.rs:17 | `ImageBuffer::new(w, h)` is a valid w x h image whose samples are all zero |
| Images.FromFn | src/toimage/ndarray_impl.rs:48-50 | `ImageBuffer::from_fn` is a valid image whose sample k of pixel (x, y) is sample k of f(x, y) |
| Images.FromRaw | src/toimage/ndarray_impl.rs:11-12 | `ImageBuffer::from_raw` succeeds exactly when the vector holds w * h * c samples, and then wraps that vector unchanged |
| NalgebraToNdarray.VectorToView | src/tondarray/nalgebra_impl.rs:29-36 | `ref_ndarray1` on a vector view has the row count as its length and the row stride as its stride; element k is stored where vector entry k is; it fits every buffer the vector fits |
| NalgebraToNdarray.VectorViewReads | src/tondarray/nalgebra_impl.rs:83-90 | iterating the 1-D view yields the vector's entries in order |
| NalgebraToNdarray.VectorViewFill | src/tondarray/nalgebra_impl.rs:57-64 | `mut_ndarray1().fill(x)` sets every entry of the vector to x and no other slot |
| NalgebraToNdarray.OwnedVectorView | src/tondarray/nalgebra_impl.rs:67-77 | a vector and its first `count` rows, converted with `to_ndarray1`, read the vector's entries in order |
| NalgebraToNdarray.Vector4ViewExample | src/tondarray/nalgebra_impl.rs:11-21 | the `Vector4` doc example reads 1, 2, 3, 4 with length 4 |
| NalgebraToNdarray.Vector4FillExample | src/tondarray/nalgebra_impl.rs:39-49 | the `mut_ndarray1` doc example leaves the vector all zero |
| NalgebraToNdarray.StridedRowsView | src/tondarray/nalgebra_impl.rs:100 | every other row of a length-4 vector is the 1-D view of length 2 and stride 2 |
| NalgebraToNdarray.StridedRowsFillExample | src/tondarray/nalgebra_impl.rs:93-101 | filling every other row with 0 turns 1, 2, 3, 4 into 0, 2, 0, 4 |
| NalgebraToNdarray.MatrixToView | src/tondarray/nalgebra_impl.rs:139-141 | `ref_ndarray2` keeps the shape and both strides; element (i, j) is stored where matrix entry (i, j) is; it fits every buffer the matrix fits |
| NalgebraToNdarray.MatrixViewRow | src/tondarray/nalgebra_impl.rs:129-130 | row i of the converted view reads the matrix's row i |
| NalgebraToNdarray.Matrix4ViewExample | src/tondarray/nalgebra_impl.rs:118-131 | the `Matrix4` doc example: row 1 reads 5, 6, 7, 8 and the shape is 4 x 4 |
| NalgebraToNdarray.MatrixViewFillRow | src/tondarray/nalgebra_impl.rs:164-171 | when no two entries share a slot, filling row i of `mut_ndarray2` sets exactly row i of the matrix to x |
| NalgebraToNdarray.Matrix4FillRowExample | src/tondarray/nalgebra_impl.rs:144-156 | the `mut_ndarray2` doc example zeroes row 1 and keeps row 0 |
| NalgebraToNdarray.RowSliceView | src/tondarray/nalgebra_impl.rs:193-195 | `row(i).to_ndarray2()` is a 1 x ncols view whose element (0, j) is matrix entry (i, j) |
| NalgebraToNdarray.RowSliceFill | src/tondarray/nalgebra_impl.rs:216-223 | when no two entries share a slot, `row_mut(i).to_ndarray2().fill(x)` sets exactly row i of the matrix to x |
| NalgebraToNdarray.OwnedRowView | src/tondarray/nalgebra_impl.rs:178-186 | a row of an owned matrix, converted, reads that row of the matrix in order |
| NalgebraToNdarray.RowToNdarray2Example | src/tondarray/nalgebra_impl.rs:174-186 | the `row(1)` doc example reads 5, 6, 7, 8 with shape 1 x 4 |
| NalgebraToNdarray.RowMutFillExample | src/tondarray/nalgebra_impl.rs:198-209 | the `row_mut(1)` doc example zeroes row 1 of the matrix and keeps row 2 |
| NalgebraToNdarray.DVectorToArray1 | src/tondarray/nalgebra_impl.rs:246-248 | an owned vector becomes a 1-D array over the same vector that iterates its entries in order |
| NalgebraToNdarray.DVectorToArray1Example | src/tondarray/nalgebra_impl.rs:231-242 | the doc example: the owned vector 1, 2, 3, 4 becomes an array of dim 4 iterating 1, 2, 3, 4 |
| NalgebraToNdarray.DMatrixToArray2 | src/tondarray/nalgebra_impl.rs:272-274 | an owned matrix becomes a C-order nrows x ncols array over the same vector, unchanged |
| NalgebraToNdarray.DMatrixToArray2Slot | src/tondarray/nalgebra_impl.rs:272-274 | element (i, j) of that array is storage slot i * ncols + j |
| NalgebraToNdarray.DMatrixToArray2Reads | src/tondarray/nalgebra_impl.rs:272-274 | iterating that array yields the storage vector in order |
| NalgebraToNdarray.DMatrixToArray2Transposes | src/tondarray/nalgebra_impl.rs:272-274 | for a square matrix, element (i, j) of that array is matrix entry (j, i), the transpose of what `ref_ndarray2` gives |
| NalgebraToNdarray.DMatrixToArray2RowColumn | src/tondarray/nalgebra_impl.rs:262-264 | row 0 of the converted 4 x 4 array holds storage slots 0 to 3 and column 0 holds slots 0, 4, 8, 12 |
| NalgebraToNdarray.DMatrixToArray2Example | src/tondarray/nalgebra_impl.rs:251-264 | the `DMatrix` doc example: row 0 reads 1, 2, 3, 4 and column 0 reads 1, 5, 11, 15 |
| NalgebraToNdarray.DMatrixToArray2ColumnMajor | src/tondarray/nalgebra_impl.rs:272-274 | the corrected conversion: an nrows x ncols array over the same vector whose element (i, j) is matrix entry (i, j) |
| NdarrayToNalgebra.View1IntoNalgebra | src/tonalgebra/ndarray_impl.rs:16-34 | panics with "Negative stride" exactly when the stride is negative; otherwise a len x 1 view whose row stride is 1 and whose column stride is the array's stride |
| NdarrayToNalgebra.View1IntoNalgebraAgrees | src/tonalgebra/ndarray_impl.rs:21-32 | every entry k of the view is stored in the slot of element k of the array exactly when the stride is 1 or the length is at most 1 |
| NdarrayToNalgebra.View1IntoNalgebraFits | src/tonalgebra/ndarray_impl.rs:21-32 | with a positive stride, the view fits every buffer the array fits |
| NdarrayToNalgebra.View1IntoNalgebraStrideCounterexample | src/tonalgebra/ndarray_impl.rs:29 | for the stride-2 view of 1, 2, 3, 4, entry 1 of the view is 2 while element 1 of the array is 3 |
| NdarrayToNalgebra.View1IntoNalgebraBroadcastCounterexample | src/tonalgebra/ndarray_impl.rs:29 | a stride-0 view of length 3 fits a 1-element buffer, but its nalgebra view does not |
| NdarrayToNalgebra.View1IntoNalgebraStrided | src/tonalgebra/ndarray_impl.rs:21-32 | the corrected conversion: same panic; entry k is stored where element k is, and it fits every buffer the array fits |
| NdarrayToNalgebra.View1RoundTrip | src/tonalgebra/ndarray_impl.rs:16-34 | a nalgebra vector view converted to ndarray and back by the corrected conversion is the same view with its column stride set to 1; by the conversion as written, entry k comes back in the slot of the original entry k exactly when the row stride is 1 or k is 0 |
| NdarrayToNalgebra.Array1ViewRoundTrip | src/tonalgebra/ndarray_impl.rs:43-61 | a 1-D ndarray view with a non-negative stride converted to nalgebra by the corrected conversion and back is the same layout; by the conversion as written, this holds for stride 1 |
| NdarrayToNalgebra.View1Example | src/tonalgebra/ndarray_impl.rs:8-15 | the doc example reads 1, 2, 3, 4 with shape 4 x 1 |
| NdarrayToNalgebra.Array1IntoNalgebra | src/tonalgebra/ndarray_impl.rs:71-85 | an owned 1-D array becomes a vector holding its elements in iteration order |
| NdarrayToNalgebra.Array1IntoNalgebraExample | src/tonalgebra/ndarray_impl.rs:63-70 | the doc example: `array![1, 2, 3, 4].into_nalgebra()` iterates 1, 2, 3, 4 and has shape (4, 1) |
| NdarrayToNalgebra.VectorRoundTrip | src/tonalgebra/ndarray_impl.rs:71-85 | a vector converted to ndarray and back is the same vector |
| NdarrayToNalgebra.Array1RoundTrip | src/tonalgebra/ndarray_impl.rs:71-85 | a 1-D array converted to nalgebra and back has the same length and elements |
| NdarrayToNalgebra.View2IntoNalgebra | src/tonalgebra/ndarray_impl.rs:101-123 | panics on a negative row stride, otherwise on a negative column stride; otherwise entry (i, j) is stored where element (i, j) is, and the view fits every buffer the array fits |
| NdarrayToNalgebra.View2RoundTrip | src/tonalgebra/ndarray_impl.rs:139-161 | a matrix view converted to ndarray and back is the same view, and the other way round for a view with non-negative strides |
| NdarrayToNalgebra.View2Transposed | src/tonalgebra/ndarray_impl.rs:96-99 | column j of the transposed array's matrix is row j of the array |
| NdarrayToNalgebra.View2Example | src/tonalgebra/ndarray_impl.rs:87-100 | the doc example: row 1 reads 5, 6, 7, 8, the shape is 4 x 4, and column 1 of the transposed view reads 5, 6, 7, 8 |
| NdarrayToNalgebra.SingleRowExample | tests/nalgebra.rs:3-16 | a 1 x 4 array converts to a 1 x 4 matrix with the same entries |
| NdarrayToNalgebra.Array2IntoNalgebra | src/tonalgebra/ndarray_impl.rs:177-187 | an owned 2-D array becomes a matrix of the same shape whose entry (i, j) is element (i, j) |
| NdarrayToNalgebra.Array2ReversedAxes | src/tonalgebra/ndarray_impl.rs:163-176 | column j of the matrix of `reversed_axes()` is row j of the array |
| NdarrayToNalgebra.MatrixRoundTrip | src/tonalgebra/ndarray_impl.rs:177-187 | a matrix converted to ndarray by the corrected conversion and back is the same matrix |
| NdarrayToNalgebra.MatrixRoundTripAsWritten | src/tonalgebra/ndarray_impl.rs:177-187 | with the conversion as written, the 2 x 2 matrix 1, 2, 3, 4 comes back transposed |
| NdarrayToNalgebra.Array2Example | src/tonalgebra/ndarray_impl.rs:163-176 | the owned doc example: row 1 reads 5, 6, 7, 8 and column 1 of the transposed matrix does too |
| ImageToNdarray.AsNdarray2 | src/tondarray/image_impl.rs:65-76 | the `unwrap()` panics exactly when the image has no rows and is wider than its vector's length plus one; otherwise a single-channel image is viewed with shape (height, width) and strides (height stride, width stride), element (y, x) is pixel (x, y), and the view fits the buffer |
| ImageToNdarray.IntoNdarray2 | src/tondarray/image_impl.rs:29-40 | panics exactly when `as_ndarray2` does; otherwise the owned conversion keeps the sample vector, has shape (height, width) with strides (height_stride, width_stride) from offset 0, and reads pixel (x, y) at (y, x) |
| ImageToNdarray.IntoNdarray2Order | src/tondarray/image_impl.rs:29-40 | when the conversion succeeds, iterating the owned array visits the pixels row by row, in storage order |
| ImageToNdarray.EmptyGrayImagePanics | src/tondarray/image_impl.rs:65-76 | `GrayImage::new(4, 0)` has no pixels, yet `as_ndarray2` and `into_ndarray2` panic on it |
| ImageToNdarray.AsNdarray2MutFillRow | src/tondarray/image_impl.rs:99-110 | filling row y of the mutable view sets exactly row y of the image |
| ImageToNdarray.IntoNdarray2Example | src/tondarray/image_impl.rs:12-21 | the 2 x 4 doc example has shape (4, 2) and fills to 255 everywhere |
| ImageToNdarray.AsNdarray2Example | src/tondarray/image_impl.rs:43-54 | the doc example: after setting pixel (1, 0) to 255, row 0 sums to 255 |
| ImageToNdarray.AsNdarray2MutExample | src/tondarray/image_impl.rs:79-88 | the doc example: the mutable view has dim (4, 2), and filling its row 0 with 255 sets pixel (1, 0) to 255 |
| ImageToNdarray.AsNdarray3 | src/tondarray/image_impl.rs:166-178 | the `unwrap()` succeeds exactly when the image has no channels, or has pixels, or its empty layout's largest offset (channels * max(width, 1) - 1) is at most the vector's length; then the image is viewed with shape (channels, height, width), element (k, y, x) is sample k of pixel (x, y), and the view fits the buffer |
| ImageToNdarray.IntoNdarray3 | src/tondarray/image_impl.rs:130-142 | panics exactly when `as_ndarray3` does; otherwise the owned conversion keeps the sample vector and reads sample k of pixel (x, y) at (k, y, x) |
| ImageToNdarray.EmptyRgbImagePanics | src/tondarray/image_impl.rs:166-178 | `RgbImage::new(0, 4)` has no pixels, yet `as_ndarray3` and `into_ndarray3` panic on it |
| ImageToNdarray.FillChannel | src/tondarray/image_impl.rs:197-209 | filling a channel plane through `as_ndarray3_mut` panics exactly when the view does, and otherwise keeps the image valid and its dimensions |
| ImageToNdarray.FillChannelSample | src/tondarray/image_impl.rs:197-209 | after filling channel plane k, sample k of a pixel is the fill value and every other sample is unchanged |
| ImageToNdarray.AsNdarray3MutFillChannel | src/tondarray/image_impl.rs:197-209 | filling channel plane k of the mutable view succeeds on an image with pixels and sets exactly channel k of every pixel |
| ImageToNdarray.IntoNdarray3Example | src/tondarray/image_impl.rs:113-122 | the RGB doc example has shape (3, 4, 2) and fills to 255 everywhere |
| ImageToNdarray.AsNdarray3ChannelRow | src/tondarray/image_impl.rs:156-158 | when the view exists, `s![k, y, ..]` iterates channel k of row y, pixel by pixel |
| ImageToNdarray.ChannelRowSum | src/tondarray/image_impl.rs:156-158 | `slice(s![k, y, ..]).sum()` panics exactly when `as_ndarray3` does, and is otherwise the sum of channel k over the pixels of row y, left to right |
| ImageToNdarray.ChannelRowSumPair | src/tondarray/image_impl.rs:156-158 | in an image two pixels wide, that sum over row 0 is sample k of pixel (0, 0) plus sample k of pixel (1, 0) |
| ImageToNdarray.GreenPixelImage | src/tondarray/image_impl.rs:150-151 | the doc image is a valid 2 x 4 RGB image; in row 0, pixel (0, 0) has red and green 0 and pixel (1, 0) has red 0 and green 255 |
| ImageToNdarray.AsNdarray3Example | src/tondarray/image_impl.rs:145-158 | on that image the view has dim (3, 4, 2), `s![1, 0, ..]` sums to 255 and `s![0, 0, ..]` sums to 0 |
| ImageToNdarray.AsNdarray3MutExample | src/tondarray/image_impl.rs:181-189 | the doc example: filling the blue plane makes pixel (0, 0) read 0, 0, 255 |
| NdarrayToImage.IntoImage3 | src/toimage/ndarray_impl.rs:8-14 | panics with a channel mismatch exactly when the first axis is not the channel count; otherwise fails to unwrap exactly when the vector is too short; otherwise the image has the array's dimensions and its vector |
| NdarrayToImage.IntoImageRgba | src/toimage/ndarray_impl.rs:8-14 | the channel check is against 4 |
| NdarrayToImage.IntoImageRgb | src/toimage/ndarray_impl.rs:20-25 | the channel check is against 3 |
| NdarrayToImage.IntoImageGray | src/toimage/ndarray_impl.rs:31-36 | fails exactly when the vector is shorter than width x height; otherwise a one-channel image over the array's vector |
| NdarrayToImage.IntoImage3Interleaved | src/toimage/ndarray_impl.rs:11-12 | for an array in the interleaved layout, sample k of pixel (x, y) is element (k, y, x) |
| NdarrayToImage.RgbaRoundTrip | src/toimage/ndarray_impl.rs:8-14 | an RGBA image that `into_ndarray3` accepts comes back through `into_image_rgba` as the same image |
| NdarrayToImage.RgbRoundTrip | src/toimage/ndarray_impl.rs:20-25 | an RGB image that `into_ndarray3` accepts comes back through `into_image_rgb` as the same image |
| NdarrayToImage.GrayRoundTrip | src/toimage/ndarray_impl.rs:31-36 | a gray image that `into_ndarray2` accepts comes back through `into_image_gray` as the same image |
| NdarrayToImage.ImageAlphaRoundTrip | src/toimage/ndarray_impl.rs:46-68 | the alpha test: the 3 x 3 RGBA image has array shape (4, 3, 3) and every pixel survives the round trip |
| NdarrayToImage.IntoImageRgbaPlanarCounterexample | src/toimage/ndarray_impl.rs:11-12 | for a C-order (4, 1, 2) array over 1..8, element (1, 0, 0) is 3 but sample 1 of pixel (0, 0) is 2 |
| NdarrayToImage.LogicalImage | src/toimage/ndarray_impl.rs:11-12 | an image whose sample k of pixel (x, y) is element (k, y, x), whatever the strides |
| NdarrayToImage.IntoImageRgbaLogical | src/toimage/ndarray_impl.rs:8-14 | the corrected conversion: same panics; sample k of pixel (x, y) is element (k, y, x) |
| NdarrayToImage.IntoImageRgbaLogicalAgrees | src/toimage/ndarray_impl.rs:46-68 | on arrays that `into_ndarray3` makes, the corrected conversion gives the same image as the one as written |
| NdarrayToImage.IntoImageRgbaLogicalPlanar | src/toimage/ndarray_impl.rs:11-12 | on the C-order array above, the corrected conversion reads 3 for sample 1 of pixel (0, 0) |

## Left out

- Traits, associated types and the cargo features that enable each module: the conversions are plain functions here.
- Raw pointers, lifetimes and borrowing: a view is a layout over a shared `seq`. The rule that a mutable borrow is exclusive is not modelled. A write through a view is a `Fill` of the buffer.
- The libraries' own code (`from_shape_ptr`, `ViewStorage::from_raw_parts`, `from_iterator_generic`, `sample_layout`, `from_raw`, `into_raw_vec`): only the part the conversions rely on is modelled, in `Layouts`, `Nalgebra` and `Images`.
- Layouts.FromShapeStrides: ndarray also rejects strides under which two elements share a slot, and it checks the size for `isize` overflow. Neither check is modelled. The conversions only pass strides that pass them.
- Machine integers: `usize`, `isize` and `u32` are unbounded here. The `as u32` casts of an array's dimensions are preconditions that the dimensions are below 2^32 (`Images.DIM_LIMIT`). The `checked_mul` overflow in `ImageBuffer::from_raw` is not modelled.
- Floating point: the doc examples use `f32` values 0.1, 0.2 and so on. Here they are the integers 1, 2 and so on, ten times larger. The proofs do not depend on the values.
- Element types: the conversions are generic over the element type. The conversions from ndarray to image are for `u8` arrays only; here they are generic too. The conversions from image to ndarray are generic over the subpixel type, as in the source.
- `ToImageLuma` is declared but has no implementation, so there is nothing to model.
- ArrayViewMut1 and ArrayViewMut2 are modelled by the same functions as the shared views. Their bodies differ only in the pointer and storage types.
- Writes through the nalgebra views that `into_nalgebra` returns are not modelled. For `View2IntoNalgebra` and the corrected `View1IntoNalgebraStrided`, each view entry is proved to sit in the slot of the matching array element. For `View1IntoNalgebra` as written that holds only at stride 1 or for length at most 1 (see Findings).
- NdarrayToImage.RgbaRoundTrip: stated for the images that `into_ndarray3` accepts. On an empty image where the `unwrap()` panics there is nothing to convert back.
- NdarrayToImage.RgbRoundTrip: stated for the images that `into_ndarray3` accepts, for the same reason.
- NdarrayToImage.GrayRoundTrip: stated for the images that `into_ndarray2` accepts, for the same reason.
- NdarrayToImage.IntoImageRgbaLogicalAgrees: stated for the images that `into_ndarray3` accepts, for the same reason.
- ImageToNdarray.IntoNdarray2Order: stated when `into_ndarray2` succeeds, for the same reason.
- ImageToNdarray.AsNdarray3ChannelRow: stated when `as_ndarray3` succeeds, for the same reason.
- ImageToNdarray.ChannelRowSum: samples are unbounded integers; the `u8` overflow of `sum()`, which panics in a debug build once channel k of row y passes 255, is not modelled.
- NalgebraToNdarray.OwnedVectorView: the doc example `m.rows(0, 4).to_ndarray1()` is proved for every vector and every row count, not for the literal values.
- Images.SampleLayoutOf: the sample layout is assumed packed, row-major and interleaved, as for every `ImageBuffer` over a `Vec`. Other layouts are not modelled.
- Nalgebra.RowsWithStep: its `requires` stands for nalgebra's "Matrix slicing out of bounds." assertion, a panic inside the library and not a check nshare makes. That panic path is not modelled.
- ImageToNdarray.FillChannel: its `requires` k < channels stands for ndarray's out-of-bounds panic in `slice_mut(s![k, .., ..])`, a panic inside the library and not a check nshare makes. That panic path is not modelled.
- Images.FromRaw: like `ImageBuffer::from_raw`, it accepts a vector longer than needed. Samples past the end are never read.

## Findings

| source | as written | input that shows it | evidently intended | confidence | as-written member | corrected member |
|---|---|---|---|---|---|---|
| src/tondarray/nalgebra_impl.rs:272-274 | the owned `DMatrix` becomes a C-order array over its column-major vector, so element (i, j) is entry (j, i) | `DMatrix::from_vec(2, 2, vec![1, 2, 3, 4])`: the array has (0, 1) = 2, while entry (0, 1) is 3. Converted back with `into_nalgebra`, the matrix is transposed | element (i, j) is entry (i, j), as `ref_ndarray2` gives for the same matrix, so that the owned round trip returns the same matrix | medium, not executed | NalgebraToNdarray.DMatrixToArray2Transposes | NalgebraToNdarray.DMatrixToArray2ColumnMajor |
| src/tonalgebra/ndarray_impl.rs:29 | a 1-D view becomes a len x 1 nalgebra view with row stride 1 and the ndarray stride as the column stride. A single column never uses the column stride | the stride-2 view `s![..;2]` of 1, 2, 3, 4 gives a vector reading 1, 2 instead of 1, 3. A stride-0 broadcast view of length 3 over one element gives a view reaching past the buffer | the ndarray stride is the row stride, so entry k is element k | high, not executed | NdarrayToNalgebra.View1IntoNalgebraStrideCounterexample | NdarrayToNalgebra.View1IntoNalgebraStrided |
| src/toimage/ndarray_impl.rs:11-12 | `into_image_rgba` hands the array's vector in memory order to `from_raw`, which reads it as interleaved pixels | a C-order array of shape (4, 1, 2) over 1..8: element (1, 0, 0) is 3, but sample 1 of pixel (0, 0) is 2 | sample k of pixel (x, y) is element (k, y, x), as for arrays made by `into_ndarray3` | medium, not executed | NdarrayToImage.IntoImageRgbaPlanarCounterexample | NdarrayToImage.IntoImageRgbaLogical |
