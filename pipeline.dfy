/** The application state behind the user interface: the loaded image, the
    result of the last filter and the selected algorithm, with the operations
    the interface triggers (open, choose, apply, use output as input). */
module Pipeline {
  import opened Raster
  import Convolution
  import Resample
  import OrderFilters
  import Colour
  import Noise

  /** Largest width or height an input may keep without being scaled down. */
  const MaxDim: nat := 300

  /** The algorithms the application offers. */
  datatype Algorithm =
    | Blur | Sharpen | EdgeDetect | Invert | Mean | Maximum | Median | Minimum
    | ZoomNN | ZoomBilinear | Grayscale | Negative | Sobel | Laplacian | Binarize
    | Threshold(level: Channel)
    | SaltPepper(probability: real)
    | PseudoColors

  datatype Option<T> = None | Some(value: T)

  /** The image `algo` produces from `img`. `rnd` is f32 rounding, `luma` the
      grayscale weighting and `noise` the random source, all supplied from outside. */
  function Filtered(algo: Algorithm, img: Raster, rnd: Convolution.Rounding, luma: Pixel -> Channel,
                    noise: nat -> Noise.Draw): Raster
  {
    match algo
    case Blur => Convolution.Convolve(img, Convolution.BoxKernel, 1.0, 0.0, rnd)
    case Sharpen => Convolution.Convolve(img, Convolution.SharpenKernel, 1.0, 0.0, rnd)
    case EdgeDetect => Convolution.Convolve(img, Convolution.EdgeKernel, 1.0, 0.0, rnd)
    case Invert => Colour.Inverted(img)
    case Negative => Colour.Inverted(img)
    case Maximum => OrderFilters.MaximumFiltered(img)
    case Minimum => OrderFilters.MinimumFiltered(img)
    case Mean => Convolution.Convolve(img, Convolution.BoxKernel, 1.0, 0.0, rnd)
    case Median => OrderFilters.MedianFiltered(img)
    case ZoomNN => Resample.ZoomNearest(img)
    case ZoomBilinear => Resample.BilinearZoomed(img)
    case Grayscale => Colour.GrayscaleImage(luma, img)
    case Sobel => Convolution.Convolve(img, Convolution.SobelKernel, 1.0, 0.0, rnd)
    case Laplacian => Convolution.Convolve(img, Convolution.LaplacianKernel, 1.0, 0.0, rnd)
    case Binarize => Colour.BinarizedImage(luma, img, 128)
    case Threshold(t) => Colour.BinarizedImage(luma, img, t)
    case SaltPepper(p) => Noise.Noised(img, p, noise)
    case PseudoColors => Colour.PseudoColored(img)
  }

  /** Whether a decoded image exceeds the size limit in either dimension. */
  predicate Oversized(img: Raster) {
    img.width > MaxDim || img.height > MaxDim
  }

  /** The dimensions an oversized image is scaled to: both sides multiplied by
      MaxDim / max(width, height) and truncated. */
  function FitDims(w: nat, h: nat): (d: (nat, nat))
    requires w >= 1 && h >= 1
  {
    var m := if w >= h then w else h;
    (w * MaxDim / m, h * MaxDim / m)
  }

  /** Scaling keeps the aspect ratio's bound: the longer side becomes exactly
      MaxDim and neither side exceeds it. */
  lemma FitDimsBound(w: nat, h: nat)
    requires w >= 1 && h >= 1
    ensures FitDims(w, h).0 <= MaxDim && FitDims(w, h).1 <= MaxDim
    ensures w >= h ==> FitDims(w, h).0 == MaxDim
    ensures h >= w ==> FitDims(w, h).1 == MaxDim
  {
    var m := if w >= h then w else h;
    DivAtMost(w, m, MaxDim);
    DivAtMost(h, m, MaxDim);
    DivAtMost(m, m, MaxDim);
  }

  /** Truncating division: (a * c) / m is at most c when a <= m, and exactly c
      when a == m. */
  lemma DivAtMost(a: nat, m: nat, c: nat)
    requires 1 <= m && a <= m
    ensures a * c / m <= c
    ensures a == m ==> a * c / m == c
  {
    var n := a * c;
    var q, r := n / m, n % m;
    assert n == q * m + r && 0 <= r < m;
    MulMonotone(a, m, c);
    var cm := c * m;
    assert n <= cm;
    MulMonotone(c, q, m);
    assert c < q ==> cm + m <= q * m;
    MulMonotone(q, c, m);
    assert q < c ==> q * m + m <= cm;
  }

  /** The image `load_image` stores for a decoded image: unchanged when within the
      limit, otherwise handed to the library's nearest-neighbour `resize` at the
      fitted dimensions. */
  function Fitted(img: Raster, resize: (Raster, nat, nat) -> Raster): Raster
  {
    if Oversized(img) then
      var d := FitDims(img.width, img.height);
      resize(img, d.0, d.1)
    else img
  }

  /** The effect of each algorithm on the dimensions: the two zooms double them,
      every other algorithm keeps them. */
  lemma FilteredDims(algo: Algorithm, img: Raster, rnd: Convolution.Rounding, luma: Pixel -> Channel, noise: nat -> Noise.Draw)
    ensures var out := Filtered(algo, img, rnd, luma, noise);
      if algo == ZoomNN || algo == ZoomBilinear then
        out.width == 2 * img.width && out.height == 2 * img.height
      else
        out.width == img.width && out.height == img.height
  {
    if algo == ZoomBilinear {
      Resample.ZoomBilinearExact(img, 0, 0);
    }
  }

  /** The menu aliases: Mean is Blur, Negative is Invert, and Binarize is a
      threshold at 128. */
  lemma Aliases(img: Raster, rnd: Convolution.Rounding, luma: Pixel -> Channel, noise: nat -> Noise.Draw)
    ensures Filtered(Mean, img, rnd, luma, noise) == Filtered(Blur, img, rnd, luma, noise)
    ensures Filtered(Negative, img, rnd, luma, noise) == Filtered(Invert, img, rnd, luma, noise)
    ensures Filtered(Binarize, img, rnd, luma, noise) == Filtered(Threshold(128), img, rnd, luma, noise)
  {
  }

  /** Applying Invert to the output of Invert gives back the original. */
  lemma InvertTwice(img: Raster, rnd: Convolution.Rounding, luma: Pixel -> Channel, noise: nat -> Noise.Draw)
    ensures Filtered(Invert, Filtered(Invert, img, rnd, luma, noise), rnd, luma, noise) == img
  {
    Colour.InvertInvolution(img);
  }

  /** Inversion reverses the luminance score the Maximum and Minimum filters rank
      by, so it turns the brightest neighbour into the darkest and back. */
  lemma InvertReversesScore(p: Pixel, q: Pixel)
    ensures OrderFilters.Score(Colour.InvertPixel(p)) == 2550000 - OrderFilters.Score(p)
    ensures OrderFilters.Score(p) < OrderFilters.Score(q)
        <==> OrderFilters.Score(Colour.InvertPixel(q)) < OrderFilters.Score(Colour.InvertPixel(p))
  {
  }

  /** The luma `binarize` thresholds and the score the Maximum and Minimum filters
      rank by are one weighted sum: the luma is the score truncated by 10000, so a
      higher luma implies a higher score. */
  lemma LumaIsScaledScore(p: Pixel, q: Pixel)
    ensures Colour.Luma709(p) == OrderFilters.Score(p) / 10000
    ensures Colour.Luma709(p) < Colour.Luma709(q) ==> OrderFilters.Score(p) < OrderFilters.Score(q)
  {
  }

  /** `PDIApp`. */
  class App {
    var input: Option<Raster>
    var output: Option<Raster>
    var selected: Algorithm

    /** `PDIApp::new`: nothing loaded, no output, Blur selected. */
    constructor ()
      ensures input == None && output == None && selected == Blur
    {
      input := None;
      output := None;
      selected := Blur;
    }

    /** `load_image`: `decoded` is the result of opening the file (None when it
        cannot be opened or decoded). A decoded image, scaled down when
        oversized, becomes the input and clears the output; a failed open changes
        nothing. */
    method LoadImage(decoded: Option<Raster>, resize: (Raster, nat, nat) -> Raster)
      modifies this
      ensures decoded.None? ==> input == old(input) && output == old(output)
      ensures decoded.Some? ==> input == Some(Fitted(decoded.value, resize)) && output == None
      ensures selected == old(selected)
    {
      if decoded.Some? {
        var img := decoded.value;
        var w, h := img.width, img.height;
        if w > MaxDim || h > MaxDim {
          var d := FitDims(w, h);
          img := resize(img, d.0, d.1);
        }
        input := Some(img);
        output := None;
      }
    }

    /** Choosing an algorithm in the side panel. */
    method Select(algo: Algorithm)
      modifies this
      ensures selected == algo && input == old(input) && output == old(output)
    {
      selected := algo;
    }

    /** `apply_filter`: with an input loaded, run the selected algorithm on it and
        store the result as the output; without one, do nothing. */
    method ApplyFilter(rnd: Convolution.Rounding, luma: Pixel -> Channel, noise: nat -> Noise.Draw)
      modifies this
      ensures input == old(input) && selected == old(selected)
      ensures old(input).None? ==> output == old(output)
      ensures old(input).Some? ==> output == Some(Filtered(selected, old(input).value, rnd, luma, noise))
    {
      if input.Some? {
        var img := input.value;
        var res: Raster;
        match selected {
          case Blur => res := Convolution.ApplyKernel(img, Convolution.BoxKernel, 1.0, 0.0, rnd);
          case Sharpen => res := Convolution.ApplyKernel(img, Convolution.SharpenKernel, 1.0, 0.0, rnd);
          case EdgeDetect => res := Convolution.ApplyKernel(img, Convolution.EdgeKernel, 1.0, 0.0, rnd);
          case Invert => res := Colour.Inverted(img);
          case Negative => res := Colour.Inverted(img);
          case Maximum => res := OrderFilters.MaximumFilter(img);
          case Minimum => res := OrderFilters.MinimumFilter(img);
          case Mean => res := Convolution.ApplyKernel(img, Convolution.BoxKernel, 1.0, 0.0, rnd);
          case Median => res := OrderFilters.MedianFilter(img);
          case ZoomNN => res := Resample.ZoomNN(img);
          case ZoomBilinear => res := Resample.ZoomBilinear(img);
          case Grayscale => res := Colour.ToGrayscale(luma, img);
          case Sobel => res := Convolution.ApplyKernel(img, Convolution.SobelKernel, 1.0, 0.0, rnd);
          case Laplacian => res := Convolution.ApplyKernel(img, Convolution.LaplacianKernel, 1.0, 0.0, rnd);
          case Binarize => res := Colour.Binarize(luma, img, 128);
          case Threshold(t) => res := Colour.Binarize(luma, img, t);
          case SaltPepper(p) => res := Noise.SaltPepper(img, p, noise);
          case PseudoColors => res := Colour.PseudoColors(img);
        }
        output := Some(res);
      }
    }

    /** "Use output as input": offered only while there is an output, which then
        moves into the input slot, emptying the output slot; with no output
        nothing changes. */
    method PromoteOutput()
      modifies this
      ensures old(output).Some? ==> input == old(output) && output == None
      ensures old(output).None? ==> input == old(input) && output == None
      ensures selected == old(selected)
    {
      if output.Some? {
        input := output;
        output := None;
      }
    }
  }
}
