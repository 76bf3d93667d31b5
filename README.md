# trabalho_pdi image filters in Dafny

This project models the image-processing core of `trabalho_pdi`, a small desktop
tool. The tool opens an image, lets the user pick one of fifteen algorithms in
its side panel, applies it and can feed the result back in as the next input.
The algorithm type has eighteen variants: Blur is only the initial selection, and
EdgeDetect and Negative have no button. The model keeps all eighteen.

The model covers two parts:

- The pixel-transform engine. Each transform the program implements itself is a
  method whose loops fill a pixel buffer, proved equal to a specification
  function. Inversion is a library call and is modelled as the function
  `Colour.Inverted`, without loops. The transforms are:
  - 3x3 convolution with the named kernels
  - median, maximum and minimum filters
  - 2x nearest-neighbour and bilinear zoom
  - grayscale, binarize/threshold, inversion and pseudo-colours
  - salt-and-pepper noise
- The application state (`PDIApp`), as a class `App` with the fields `input`,
  `output` and `selected`. Its methods mirror `new`, `load_image`, `apply_filter`,
  choosing an algorithm, and "use output as input".

Images are RGBA8. An image is its width, its height (both at least 1) and a
row-major sequence of exactly width × height pixels. The pixel at column x,
row y is element y · width + x. The modules are:

| module | file | contents |
|---|---|---|
| `Raster` | raster.dfy | pixels, images, the `clamp … as u8` cast, index arithmetic, the 3x3 neighbourhood loop, the loop invariant shared by the pixel loops |
| `Resample` | resample.dfy | `zoom_nn`, `zoom_bilinear` |
| `Convolution` | convolution.dfy | `apply_kernel` and the named kernels |
| `OrderFilters` | order_filters.dfy | `median_filter`, `maximum_filter`, `minimum_filter` |
| `Colour` | colour.dfy | `to_grayscale`, `binarize`, the library inversion, `pseudo_colors` |
| `Noise` | noise.dfy | `salt_pepper` |
| `Pipeline` | pipeline.dfy | `Algorithm`, `MAX_DIM`, `PDIApp` |

Behaviour of the code worth noting:

- The 3x3 filters never write their one-pixel border. The buffer starts zeroed,
  so the border stays transparent black (0, 0, 0, 0); it is not copied from the
  source.
- `binarize` compares the image library's `to_luma8` of the grayscale image
  with the threshold. On the grey pixels that grayscale produces, this value is
  the grey level itself (`Colour.Luma709Grey`). So binarize outputs white exactly
  where the grey level exceeds t (`Colour.BinarizePixel`).
- An image is scaled down when `w > 300 || h > 300`.
- `Threshold` and `SaltPepper` parameters are not range-checked anywhere.

## Model

| member | source | states |
|---|---|---|
| Raster.Quantize | src/main.rs:48-50 | `clamp(0, 255) as u8` gives 0 below the range and 255 above it; inside the range it is the integer at most one unit below the value |
| Raster.CoordsOf | src/main.rs:177-181 | row-major storage is a bijection: (x, y) is index y·w + x, inside the buffer, and that index maps back to (x, y) |
| Raster.Neighbourhood | src/main.rs:98-103 | the dy/dx loops of `maximum_filter` (and the same loops at lines 124-129 of `minimum_filter`) push the nine neighbours in sampling order; entry 4 is the centre and entry 8 is (x + 1, y + 1) |
| Resample.ZoomNN | src/main.rs:173-183 | the loops fill the 2w × 2h buffer with exactly the nearest-neighbour image |
| Resample.ZoomNearestPixel | src/main.rs:175-179 | the output is 2w × 2h and out(x, y) = in(x / 2, y / 2) |
| Resample.ZoomNearestBlock | src/main.rs:179 | all four pixels of each 2 × 2 output block equal one source pixel |
| Resample.InterpolatePixel | src/main.rs:191-210 | the channel loop computes the clamped, truncated two-step interpolation between the pixel and its +1 neighbours, which are clamped to w − 1 and h − 1 |
| Resample.ZoomBilinear | src/main.rs:186-214 | the loops fill the 2w × 2h buffer with exactly the bilinear image |
| Resample.HalfCoordinate | src/main.rs:192-199 | for fx = x / 2, the floor is x div 2 and the offset is 0 for even x and 0.5 for odd x |
| Resample.BlendHalfSteps | src/main.rs:205-208 | with offsets of 0 or 1/2 the interpolation is exact: it equals the pixel, the floored mean of two pixels, or the floored mean of four |
| Resample.BilinearPixelExact | src/main.rs:190-210 | each output pixel of the real-valued formula equals the integer half-step table |
| Resample.ZoomBilinearExact | src/main.rs:188-210 | the bilinear output is 2w × 2h and every pixel is given by the integer half-step table |
| Resample.ZoomBilinearKeepsSamples | src/main.rs:192-210 | out(2i, 2j) = in(i, j): the original samples survive the zoom exactly |
| Convolution.AccumulateWindow | src/main.rs:38-47 | the ky/kx loops compute, per colour channel, the kernel-weighted sum of the nine neighbours |
| Convolution.KernelPixel | src/main.rs:39-52 | one interior pixel: weighted sums scaled, biased, clamped and truncated; alpha from the centre pixel |
| Convolution.ApplyKernel | src/main.rs:33-56 | the interior loops fill the buffer with exactly the convolved image, leaving the border as allocated |
| Convolution.ConvolveFrame | src/main.rs:34-53 | same dimensions; every border pixel is (0, 0, 0, 0); every interior pixel keeps the source alpha |
| Convolution.PartialSumsWhole | src/main.rs:38-47 | for a kernel of integer weights between -8 and 8, every partial weight sum is an integer of magnitude at most 8 per weight |
| Convolution.AccumulateExactly | src/main.rs:43-46 | one f32 multiply-and-add of a channel value and an integer weight between -8 and 8 onto an integer sum of at most 2040 per earlier tap is exact, and the new sum stays within 2040 per tap, given that f32 keeps integers up to 2^24 |
| Convolution.ExactAccumulated | src/main.rs:38-47 | on any window and an integer kernel, every f32 partial sum of the ky/kx loops equals the integer weighted sum of the taps so far, whose magnitude is at most 2040 per tap |
| Convolution.IntegerChannel | src/main.rs:48-50 | with factor 1 and bias 0, the scaled and biased f32 sum of an integer kernel is exactly the integer weighted sum of the window |
| Convolution.ConvolveInteger | src/main.rs:38-52 | with an integer kernel, factor 1 and bias 0, every interior output pixel has each colour channel equal to the integer weighted sum of its window clamped to 0..255, and the source's alpha |
| Convolution.SharpenAt | src/main.rs:272 | on any image, Sharpen sets each interior colour channel to 5·centre minus its four edge neighbours, clamped to 0..255, and keeps alpha |
| Convolution.SharpenTaps | src/main.rs:272 | the Sharpen kernel's integer weighted sum of a window is 5 times tap 4 minus taps 1, 3, 5 and 7 |
| Convolution.UniformIntAccumulated | src/main.rs:38-47 | over nine equal pixels, the integer weighted sum of the first n taps is the channel value times the sum of the first n weights |
| Convolution.UniformAccumulated | src/main.rs:38-47 | over nine equal pixels and an integer kernel, each f32 partial sum is exactly the channel value times the partial sum of the weights |
| Convolution.ConvolveSolid | src/main.rs:38-50 | on a solid image, an integer kernel's interior pixel depends only on the colour and the sum of the kernel weights; alpha is kept |
| Convolution.NamedKernelSums | src/main.rs:272-283 | Sharpen, EdgeDetect, Sobel and Laplacian have integer weights; the Sharpen weights sum to 1, the others to 0 |
| Convolution.ZeroSumKernelOnSolid | src/main.rs:272-283 | under f32 rounding, EdgeDetect, Sobel and Laplacian turn the interior of a solid image into RGB 0 with the colour's alpha |
| Convolution.SharpenOnSolid | src/main.rs:272 | under f32 rounding, Sharpen reproduces a solid colour exactly on the interior |
| OrderFilters.InsertPermutes | src/main.rs:84 | inserting a value adds exactly that value to the multiset |
| OrderFilters.InsertSorted | src/main.rs:84 | inserting into a sorted vector keeps it sorted |
| OrderFilters.SortAscendingSorted | src/main.rs:84 | the sort returns a sorted permutation of its input |
| OrderFilters.SortedUnique | src/main.rs:84 | two sorted permutations of the same values are equal, so whether the sort is stable does not matter |
| OrderFilters.MedianIsFifthSmallest | src/main.rs:84-85 | index 4 of any sorted arrangement of the nine values is the median, and the median is one of the nine values |
| OrderFilters.MedianBounds | src/main.rs:84-85 | the median lies within any bounds that hold for all nine values; nine equal values have that value as median |
| OrderFilters.ChannelVectors | src/main.rs:76-83 | the neighbour loops build the red, green and blue vectors in sampling order; `a` ends as the alpha of (x + 1, y + 1) |
| OrderFilters.MedianPixel | src/main.rs:76-85 | one interior pixel: channel-wise median of the window, alpha of the last neighbour |
| OrderFilters.MedianFilter | src/main.rs:70-89 | the interior loops fill the buffer with exactly the median-filtered image |
| OrderFilters.MedianFromNeighbours | src/main.rs:81-85 | each colour channel of the window median is that channel of some neighbour; alpha is the ninth neighbour's |
| OrderFilters.MedianFilterPixel | src/main.rs:70-89 | same dimensions; border (0, 0, 0, 0); each interior channel is one of the neighbours' values for that channel; alpha comes from (x + 1, y + 1) |
| OrderFilters.BrightestIndexSpec | src/main.rs:105-111 | the chosen neighbour has the highest luminance score, and every later one scores strictly less: this is the last element of a stable ascending sort |
| OrderFilters.DarkestIndexSpec | src/main.rs:130-135 | the chosen neighbour has the lowest score, and every earlier one scores strictly more: this is the first element of a stable ascending sort |
| OrderFilters.BrightestIndexUnique | src/main.rs:105-111 | exactly one position satisfies the stable-sort-last description |
| OrderFilters.DarkestIndexUnique | src/main.rs:130-135 | exactly one position satisfies the stable-sort-first description |
| OrderFilters.MaximumPixel | src/main.rs:97-111 | collect the neighbours and take the one a stable sort by score puts last |
| OrderFilters.MaximumFilter | src/main.rs:91-115 | the interior loops fill the buffer with exactly the maximum-filtered image |
| OrderFilters.MinimumPixel | src/main.rs:123-135 | collect the neighbours and take the one a stable sort by score puts first |
| OrderFilters.MinimumFilter | src/main.rs:117-139 | the interior loops fill the buffer with exactly the minimum-filtered image |
| OrderFilters.ExtremaFilterPixel | src/main.rs:91-139 | an interior output of either filter is one of the nine neighbours, all four channels together; its score is at least every neighbour's (maximum) or at most (minimum), so the maximum never scores below the minimum |
| Colour.ToGrayscale | src/main.rs:59-67 | the pass over all pixels fills the buffer with exactly the grayscale image |
| Colour.GrayscalePixel | src/main.rs:62-64 | every pixel, border included, has R = G = B = the luma of the source pixel and keeps the source alpha |
| Colour.Luma709Grey | src/main.rs:143 | the library luma of a grey pixel (v, v, v) is v |
| Colour.Binarize | src/main.rs:142-153 | grayscale, the luma plane, then the loops fill the buffer with exactly the thresholded image |
| Colour.BinarizePixel | src/main.rs:143-149 | a pixel is opaque white exactly when the grayscale luma of the source pixel exceeds t, and opaque black otherwise |
| Colour.BinarizeTopThreshold | src/main.rs:148 | at t = 255 every pixel is opaque black |
| Colour.BinarizeMonotone | src/main.rs:148 | lowering the threshold only turns more pixels white |
| Colour.BinarizeIdempotent | src/main.rs:148-149 | the output has only opaque black and opaque white; binarizing it again at the same threshold changes nothing, given that black and white keep their luma |
| Colour.InvertInvolution | src/main.rs:274 | inverting twice gives back the image |
| Colour.PseudoColors | src/main.rs:216-235 | the loops fill the buffer with exactly the pseudo-coloured image |
| Colour.PseudoColorBands | src/main.rs:223-228 | every intensity lies in exactly one band, and the band can be read back from the colour; red is 0 below 192 |
| Colour.PseudoColorInjective | src/main.rs:223-228 | distinct intensities get distinct colours |
| Colour.PseudoColorSmooth | src/main.rs:223-228 | consecutive intensities differ by at most 4 in each channel; red and green never decrease; alpha is always 255 |
| Colour.PseudoColorsReadRedOnly | src/main.rs:221 | images that agree in their red channels give the same output |
| Noise.SaltPepper | src/main.rs:156-170 | copy the image, then visit every pixel and overwrite those hit; the result is exactly the noised image |
| Noise.SaltPepperPixel | src/main.rs:161-166 | a pixel whose draw is below p becomes opaque white or opaque black as the coin says; any other pixel is unchanged |
| Noise.SaltPepperNever | src/main.rs:163 | with p ≤ 0 the image is unchanged |
| Noise.SaltPepperAlways | src/main.rs:163-165 | with p ≥ 1 every pixel becomes opaque black or opaque white |
| Pipeline.FitDimsBound | src/main.rs:259-261 | the requested target size of an oversized image, computed exactly, has its longer side exactly 300 and neither side above 300 |
| Pipeline.FilteredDims | src/main.rs:268-289 | the two zooms double both dimensions; every other algorithm keeps them |
| Pipeline.Aliases | src/main.rs:271-285 | Mean is Blur, Negative is Invert, and Binarize is a threshold at 128 |
| Pipeline.InvertTwice | src/main.rs:274 | applying Invert to the output of Invert gives back the input |
| Pipeline.LumaIsScaledScore | src/main.rs:105-108 | the Maximum/Minimum sort key, truncated by 10000, is the library luma that binarize thresholds, so a higher luma means a higher score |
| Pipeline.InvertReversesScore | src/main.rs:105-108 | inversion maps the luminance score s used by the Maximum and Minimum filters to 2550000 − s, so it reverses their ranking |
| Pipeline.App.constructor | src/main.rs:255 | a new application has no input, no output, and Blur selected |
| Pipeline.App.LoadImage | src/main.rs:256-266 | a decoded image becomes the input, scaled down only if oversized, and the output is cleared; a failed open changes nothing |
| Pipeline.App.Select | src/main.rs:312-326 | choosing an algorithm changes only the selection |
| Pipeline.App.ApplyFilter | src/main.rs:268-291 | without input, nothing changes; with input, the output becomes the selected algorithm's result, the convolutions under the given f32 rounding; input and selection are untouched |
| Pipeline.App.PromoteOutput | src/main.rs:332-335 | with an output, the output moves into the input slot and the output slot is emptied; without one, nothing changes |

## Left out

- The user interface: the eframe/egui panels, file dialogs, texture upload, the save button, `eprintln!` and `main`. Only the selection and the promote step are modelled.
- Opening and decoding a file: `App.LoadImage` takes the decoded image, or None for a failed open, as a parameter.
- The library `resize` is a function parameter.
- Pipeline.FitDimsBound: the target size is computed exactly, as w·300 / max(w, h) truncated (`FitDims`). The source computes it in f32, which can round one pixel lower, so the stated bound holds for the exact value only.
- Convolution.ApplyKernel: f32 arithmetic is a parameter `rnd` that rounds the exact result of each multiplication and addition. The only property assumed of it is that integers of magnitude up to 2^24 are kept, which IEEE 754 binary32 guarantees. The Blur/Mean weight is the f32 value of 1/9 (14913081 / 2^27). Blur's numeric output depends on the rounding that is not modelled, so beyond dimensions, border and alpha (`ConvolveFrame`) nothing is claimed about it.
- Colour.ToGrayscale: the f32 BT.601 weighting `0.299 R + 0.587 G + 0.114 B` truncated to u8 is an uninterpreted parameter `luma`. Its rounding is not modelled. The lemmas that need more of it say so in their preconditions.
- The f32 luma is not the identity on grey pixels: at grey 37 the weighted sum rounds to 36.999996, which truncates to 36, and twelve other grey levels behave the same way. So `to_grayscale` is not idempotent, and the model claims no idempotence for it.
- Bilinear zoom is computed in exact reals. With offsets of 0 or 1/2 and channel values up to 255, every f32 operation of `zoom_bilinear` is exact, so this matches the source.
- `to_luma8` is taken to be the image library's integer Rec. 709 formula (2126 R + 7152 G + 722 B) / 10000.
- OrderFilters.MaximumPixel: ranks by the integer score 2126 R + 7152 G + 722 B instead of the f64 weighted sum. The two agree whenever the scores differ. Between pixels with equal integer scores the f64 values can still differ by rounding: (0, 0, 130) and (31, 3, 9) both score 93860. So the model's choice among tied pixels may not match the source's. `ExtremaFilterPixel` does not depend on ties.
- OrderFilters.MaximumFilter: the same score and tie-break caveat as `MaximumPixel`.
- OrderFilters.MinimumPixel: the same score and tie-break caveat as `MaximumPixel`.
- OrderFilters.MinimumFilter: the same score and tie-break caveat as `MaximumPixel`.
- The in-place `sort_unstable` and `sort_by` are modelled by a functional insertion sort and by the index a stable sort selects. The in-place mechanics are not modelled.
- `thread_rng`: randomness is a parameter `noise` that gives each pixel, by flat index, its uniform draw and its coin. In the source the coin is drawn from the stream only on a hit, so the stream positions differ from the model. The distribution is not modelled.
- `DynamicImage::invert` is a library call. `Colour.Inverted` gives its assumed meaning (each colour channel v becomes 255 − v, alpha kept) and is not derived from the library.
- Every `DynamicImage` is treated as RGBA8; other colour types and the `to_rgba8` conversions are not modelled.
- Integer widths: doubling a u32 dimension in `zoom_nn` could overflow, and `h - 1` underflows for a zero-height image. Neither is modelled; images have at least one row and one column and unbounded dimensions.
- `println!` in `pseudo_colors` is a debug side effect and is left out.
- `equalize_colors` is left out: it is an unused stub that computes nothing.
