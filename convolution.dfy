/** The convolution engine: `apply_kernel` with a 3x3 kernel, a factor and a bias,
    and the named kernels the pipeline passes to it. Every f32 multiplication and
    addition of the source is the exact real result passed through a rounding
    function `rnd`, which the model leaves as a parameter. */
module Convolution {
  import opened Raster

  type Kernel = k: seq<seq<real>> | |k| == 3 && forall i :: 0 <= i < 3 ==> |k[i]| == 3
    witness [[0.0, 0.0, 0.0], [0.0, 0.0, 0.0], [0.0, 0.0, 0.0]]

  /** `1.0 / 9.0` as an f32: the binary32 value nearest to 1/9, 14913081 / 2^27. */
  const Ninth: real := 14913081.0 / 134217728.0
  const BoxKernel: Kernel := [[Ninth, Ninth, Ninth], [Ninth, Ninth, Ninth], [Ninth, Ninth, Ninth]]
  const SharpenKernel: Kernel := [[0.0, -1.0, 0.0], [-1.0, 5.0, -1.0], [0.0, -1.0, 0.0]]
  const EdgeKernel: Kernel := [[-1.0, -1.0, -1.0], [-1.0, 8.0, -1.0], [-1.0, -1.0, -1.0]]
  const SobelKernel: Kernel := [[-1.0, 0.0, 1.0], [-2.0, 0.0, 2.0], [-1.0, 0.0, 1.0]]
  const LaplacianKernel: Kernel := [[0.0, 1.0, 0.0], [1.0, -4.0, 1.0], [0.0, 1.0, 0.0]]

  /** The f32 rounding of an exact real result: the value the hardware stores for
      one multiplication or addition, given at every real. */
  type Rounding = m: imap<real, real> | forall r :: r in m
    ghost witness imap r: real | true :: r

  /** Largest magnitude up to which every integer is a binary32 value. */
  const F32Whole: int := 16777216

  /** `r` is an integer of magnitude at most `bound`. */
  predicate Whole(r: real, bound: int) {
    r == r.Floor as real && -bound <= r.Floor <= bound
  }

  /** IEEE 754 binary32 rounding leaves every integer of magnitude at most 2^24
      unchanged, since each of them is representable. */
  ghost predicate KeepsWholes(rnd: Rounding) {
    forall r {:trigger Whole(r, F32Whole)} :: Whole(r, F32Whole) ==> rnd[r] == r
  }

  /** The weight the source applies to tap `t` (row t / 3, column t % 3). */
  function Weight(k: Kernel, t: nat): real
    requires t < 9
  {
    k[t / 3][t % 3]
  }

  /** `px[c] as f32 * k`: the contribution of one tap to one channel's sum. */
  function Term(v: Channel, weight: real, rnd: Rounding): real
  {
    rnd[v as real * weight]
  }

  /** The accumulator `acc[c]` after the first `n` taps of the ky/kx loops over the
      window `ps` (the nine neighbourhood pixels in sampling order). */
  function Accumulated(ps: seq<Pixel>, k: Kernel, c: nat, n: nat, rnd: Rounding): real
    requires |ps| == 9 && c < 3 && n <= 9
  {
    if n == 0 then 0.0
    else AddTerm(Accumulated(ps, k, c, n - 1, rnd), Chan(ps[n - 1], c), Weight(k, n - 1), rnd)
  }

  /** `acc[c] += px[c] as f32 * k`, rounded. */
  function AddTerm(acc: real, v: Channel, weight: real, rnd: Rounding): real
  {
    rnd[acc + Term(v, weight, rnd)]
  }

  /** The weighted sum of one channel over the whole window. */
  function WindowSum(ps: seq<Pixel>, k: Kernel, c: nat, rnd: Rounding): real
    requires |ps| == 9 && c < 3
  {
    Accumulated(ps, k, c, |ps|, rnd)
  }

  /** The value the source clamps and truncates: `factor * sum + bias`. */
  function Affine(factor: real, sum: real, bias: real, rnd: Rounding): real {
    rnd[rnd[factor * sum] + bias]
  }

  /** Output pixel (x, y) of `apply_kernel`: on interior cells each colour channel is
      `clamp(factor * sum + bias, 0, 255) as u8` and alpha is the source's; the border
      ring is never written and keeps the buffer's initial transparent black. */
  function ConvolvedAt(img: Raster, k: Kernel, factor: real, bias: real, rnd: Rounding, x: nat, y: nat): Pixel
    requires x < img.width && y < img.height
  {
    if Interior((x, y), img.width, img.height) then
      WindowPixel(Window(img, x, y), k, factor, bias, rnd, At(img, x, y).a)
    else Transparent
  }

  /** The pixel written for the window `ps`: per colour channel the weighted sum,
      scaled, biased, clamped and truncated; alpha `a`. */
  function WindowPixel(ps: seq<Pixel>, k: Kernel, factor: real, bias: real, rnd: Rounding, a: Channel): Pixel
    requires |ps| == 9
  {
    Rgba(Quantize(Affine(factor, WindowSum(ps, k, 0, rnd), bias, rnd)),
         Quantize(Affine(factor, WindowSum(ps, k, 1, rnd), bias, rnd)),
         Quantize(Affine(factor, WindowSum(ps, k, 2, rnd), bias, rnd)),
         a)
  }

  function Convolve(img: Raster, k: Kernel, factor: real, bias: real, rnd: Rounding): Raster
  {
    var w, h := img.width, img.height;
    Image(w, h, seq(w * h, i requires 0 <= i < w * h =>
      var c := Coords(i, w, h); ConvolvedAt(img, k, factor, bias, rnd, c.0, c.1)))
  }

  /** One iteration of the ky/kx loops adds the weighted tap at (x + kx - 1, y + ky - 1). */
  lemma AccumulateStep(img: Raster, k: Kernel, rnd: Rounding, x: nat, y: nat, c: nat, ky: nat, kx: nat)
    requires Interior((x, y), img.width, img.height) && c < 3 && ky < 3 && kx < 3
    ensures Accumulated(Window(img, x, y), k, c, 3 * ky + kx + 1, rnd)
         == AddTerm(Accumulated(Window(img, x, y), k, c, 3 * ky + kx, rnd),
                    Chan(At(img, x + kx - 1, y + ky - 1), c), k[ky][kx], rnd)
  {
    var t := 3 * ky + kx;
    assert t / 3 == ky && t % 3 == kx;
  }

  /** The inner ky/kx loops: the three weighted sums over the window of (x, y). */
  method AccumulateWindow(img: Raster, k: Kernel, rnd: Rounding, x: nat, y: nat) returns (ar: real, ag: real, ab: real)
    requires Interior((x, y), img.width, img.height)
    ensures ar == WindowSum(Window(img, x, y), k, 0, rnd)
    ensures ag == WindowSum(Window(img, x, y), k, 1, rnd)
    ensures ab == WindowSum(Window(img, x, y), k, 2, rnd)
  {
    ar, ag, ab := 0.0, 0.0, 0.0;
    for ky := 0 to 3
      invariant ar == Accumulated(Window(img, x, y), k, 0, 3 * ky, rnd)
      invariant ag == Accumulated(Window(img, x, y), k, 1, 3 * ky, rnd)
      invariant ab == Accumulated(Window(img, x, y), k, 2, 3 * ky, rnd)
    {
      for kx := 0 to 3
        invariant ar == Accumulated(Window(img, x, y), k, 0, 3 * ky + kx, rnd)
        invariant ag == Accumulated(Window(img, x, y), k, 1, 3 * ky + kx, rnd)
        invariant ab == Accumulated(Window(img, x, y), k, 2, 3 * ky + kx, rnd)
      {
        var px := At(img, x + kx - 1, y + ky - 1);
        var kw := k[ky][kx];
        AccumulateStep(img, k, rnd, x, y, 0, ky, kx);
        AccumulateStep(img, k, rnd, x, y, 1, ky, kx);
        AccumulateStep(img, k, rnd, x, y, 2, ky, kx);
        ar := AddTerm(ar, px.r, kw, rnd);
        ag := AddTerm(ag, px.g, kw, rnd);
        ab := AddTerm(ab, px.b, kw, rnd);
      }
    }
  }

  /** The convolved image has the source's dimensions, holds ConvolvedAt at every
      cell, and is transparent black on the border ring. */
  lemma ConvolveCells(img: Raster, k: Kernel, factor: real, bias: real, rnd: Rounding)
    ensures var out := Convolve(img, k, factor, bias, rnd);
      && out.width == img.width && out.height == img.height
      && forall i :: 0 <= i < img.width * img.height && !Interior(Coords(i, img.width, img.height), img.width, img.height)
           ==> out.pixels[i] == Transparent
  {
  }

  /** The cell at (x, y) of the convolved image. */
  lemma ConvolveAtIndex(img: Raster, k: Kernel, factor: real, bias: real, rnd: Rounding, x: nat, y: nat)
    requires x < img.width && y < img.height
    ensures y * img.width + x < img.width * img.height
    ensures Convolve(img, k, factor, bias, rnd).pixels[y * img.width + x] == ConvolvedAt(img, k, factor, bias, rnd, x, y)
  {
    CoordsOf(x, y, img.width, img.height);
  }

  /** The body of the interior pixel loop: sums, clamp and truncation, alpha copied. */
  method KernelPixel(img: Raster, k: Kernel, factor: real, bias: real, rnd: Rounding, x: nat, y: nat) returns (p: Pixel)
    requires Interior((x, y), img.width, img.height)
    ensures p == ConvolvedAt(img, k, factor, bias, rnd, x, y)
  {
    var ar, ag, ab := AccumulateWindow(img, k, rnd, x, y);
    var r := Quantize(Affine(factor, ar, bias, rnd));
    var g := Quantize(Affine(factor, ag, bias, rnd));
    var b := Quantize(Affine(factor, ab, bias, rnd));
    var a := At(img, x, y).a;
    p := Rgba(r, g, b, a);
  }

  method ApplyKernel(img: Raster, k: Kernel, factor: real, bias: real, rnd: Rounding) returns (out: Raster)
    ensures out == Convolve(img, k, factor, bias, rnd)
  {
    var w, h := img.width, img.height;
    ghost var target := Convolve(img, k, factor, bias, rnd).pixels;
    var buf := new Pixel[w * h](_ => Transparent);
    ghost var init := buf[..];
    ConvolveCells(img, k, factor, bias, rnd);
    FillStartInterior(init, target, w, h);
    var y: nat := 1;
    while y < h - 1
      invariant 1 <= y
      invariant FilledBefore(buf[..], target, init, w, h, 1, y)
    {
      var x: nat := 1;
      while x < w - 1
        invariant 1 <= x
        invariant FilledBefore(buf[..], target, init, w, h, x, y)
      {
        var p := KernelPixel(img, k, factor, bias, rnd, x, y);
        FillStep(buf[..], target, init, w, h, x, y);
        ConvolveAtIndex(img, k, factor, bias, rnd, x, y);
        buf[y * w + x] := p;
        x := x + 1;
      }
      FillNextInteriorRow(buf[..], target, init, w, h, x, y);
      y := y + 1;
    }
    FillDoneInterior(buf[..], target, init, w, h, y);
    out := Image(w, h, buf[..]);
  }

  /** `apply_kernel` keeps the dimensions, leaves the border ring transparent black
      and copies alpha from the source on interior cells, whatever the kernel and
      however f32 rounds. */
  lemma ConvolveFrame(img: Raster, k: Kernel, factor: real, bias: real, rnd: Rounding, x: nat, y: nat)
    requires x < img.width && y < img.height
    ensures Convolve(img, k, factor, bias, rnd).width == img.width
    ensures Convolve(img, k, factor, bias, rnd).height == img.height
    ensures !Interior((x, y), img.width, img.height) ==> At(Convolve(img, k, factor, bias, rnd), x, y) == Transparent
    ensures Interior((x, y), img.width, img.height) ==> At(Convolve(img, k, factor, bias, rnd), x, y).a == At(img, x, y).a
  {
    ConvolveAtIndex(img, k, factor, bias, rnd, x, y);
  }

  // ---------------------------------------------------------------------
  // Integer kernels: exact f32 arithmetic

  /** The sum of the first `n` weights in tap order. */
  function PartialKernelSum(k: Kernel, n: nat): real
    requires n <= 9
  {
    if n == 0 then 0.0 else PartialKernelSum(k, n - 1) + Weight(k, n - 1)
  }

  function KernelSum(k: Kernel): real {
    PartialKernelSum(k, 9)
  }

  /** Every weight is an integer between -8 and 8, as in Sharpen, EdgeDetect, Sobel
      and Laplacian. */
  predicate IntegerKernel(k: Kernel) {
    forall t :: 0 <= t < 9 ==> Whole(Weight(k, t), 8)
  }

  /** The integer partial sums of an integer kernel's weights. */
  function PartialIntSum(k: Kernel, n: nat): int
    requires n <= 9
  {
    if n == 0 then 0 else PartialIntSum(k, n - 1) + Weight(k, n - 1).Floor
  }

  /** An integer kernel's partial sums are the integers `PartialIntSum`, bounded by
      8 per weight. */
  lemma {:induction false} PartialSumsWhole(k: Kernel, n: nat)
    requires IntegerKernel(k) && n <= 9
    ensures PartialKernelSum(k, n) == PartialIntSum(k, n) as real
    ensures -8 * n <= PartialIntSum(k, n) <= 8 * n
  {
    if n > 0 {
      PartialSumsWhole(k, n - 1);
      assert Whole(Weight(k, n - 1), 8);
    }
  }

  /** IEEE 754 binary32 rounding of an integer of magnitude at most 2^24. */
  lemma KeepsInt(rnd: Rounding, z: int)
    requires KeepsWholes(rnd) && -F32Whole <= z <= F32Whole
    ensures rnd[z as real] == z as real
  {
    assert Whole(z as real, F32Whole);
  }

  lemma RealProduct(a: int, b: int)
    ensures a as real * b as real == (a * b) as real
  {
  }

  /** A channel value times an integer of magnitude at most 72 is kept by rounding. */
  lemma KeepsProduct(rnd: Rounding, v: Channel, z: int)
    requires KeepsWholes(rnd) && -72 <= z <= 72
    ensures rnd[(v * z) as real] == (v * z) as real
  {
    SmallProduct(v, z);
    KeepsInt(rnd, v * z);
  }

  lemma SmallProduct(v: Channel, z: int)
    requires -72 <= z <= 72
    ensures -F32Whole <= v * z <= F32Whole
  {
    if z >= 0 {
      MulMonotone(v, 255, z);
    } else {
      MulMonotone(v, 255, -z);
      assert v * z == -(v * -z);
    }
  }

  /** The f32 product of a channel value and an integer weight is exact. */
  lemma ExactTerm(rnd: Rounding, v: Channel, wi: int)
    requires KeepsWholes(rnd) && -8 <= wi <= 8
    ensures Term(v, wi as real, rnd) == (v * wi) as real
  {
    RealProduct(v, wi);
    KeepsProduct(rnd, v, wi);
  }

  /** The integer weighted sum of channel `c` over the first `n` taps of the window
      `ps`, for an integer kernel. */
  function IntAccumulated(ps: seq<Pixel>, k: Kernel, c: nat, n: nat): int
    requires |ps| == 9 && c < 3 && n <= 9
  {
    if n == 0 then 0
    else IntAccumulated(ps, k, c, n - 1) + Chan(ps[n - 1], c) * Weight(k, n - 1).Floor
  }

  lemma ChannelTimesWeight(v: Channel, z: int)
    requires -8 <= z <= 8
    ensures -2040 <= v * z <= 2040
  {
    if z >= 0 {
      MulMonotone(v, 255, z);
      MulMonotone(z, 8, 255);
    } else {
      MulMonotone(v, 255, -z);
      MulMonotone(-z, 8, 255);
      assert v * z == -(v * -z);
    }
  }

  /** One f32 multiply-and-add of a channel value and an integer weight onto an
      integer sum of at most 2040 per earlier tap is exact. */
  lemma AccumulateExactly(rnd: Rounding, s: int, v: Channel, wi: int, n: nat)
    requires KeepsWholes(rnd) && 1 <= n <= 9 && -8 <= wi <= 8
    requires -2040 * (n - 1) <= s <= 2040 * (n - 1)
    ensures AddTerm(s as real, v, wi as real, rnd) == (s + v * wi) as real
    ensures -2040 * n <= s + v * wi <= 2040 * n
  {
    ExactTerm(rnd, v, wi);
    ChannelTimesWeight(v, wi);
    KeepsInt(rnd, s + v * wi);
  }

  /** For an integer kernel on any window, every f32 partial sum of the ky/kx loops
      is exactly the integer weighted sum, at most 2040 in magnitude per tap. */
  lemma {:induction false} ExactAccumulated(ps: seq<Pixel>, k: Kernel, rnd: Rounding, c: nat, n: nat)
    requires |ps| == 9 && c < 3 && n <= 9
    requires IntegerKernel(k) && KeepsWholes(rnd)
    ensures Accumulated(ps, k, c, n, rnd) == IntAccumulated(ps, k, c, n) as real
    ensures -2040 * n <= IntAccumulated(ps, k, c, n) <= 2040 * n
  {
    if n > 0 {
      ExactAccumulated(ps, k, rnd, c, n - 1);
      assert Whole(Weight(k, n - 1), 8);
      AccumulateExactly(rnd, IntAccumulated(ps, k, c, n - 1), Chan(ps[n - 1], c), Weight(k, n - 1).Floor, n);
    }
  }

  /** With factor 1 and bias 0 the scaled and biased sum is the integer sum itself. */
  lemma IntegerChannel(ps: seq<Pixel>, k: Kernel, rnd: Rounding, c: nat)
    requires |ps| == 9 && c < 3
    requires IntegerKernel(k) && KeepsWholes(rnd)
    ensures Affine(1.0, WindowSum(ps, k, c, rnd), 0.0, rnd) == IntAccumulated(ps, k, c, 9) as real
  {
    ExactAccumulated(ps, k, rnd, c, 9);
    KeepsInt(rnd, IntAccumulated(ps, k, c, 9));
  }

  /** The pixel an integer kernel writes with factor 1 and bias 0: each colour
      channel is the integer weighted sum, clamped to 0..255. */
  lemma IntegerWindowPixel(ps: seq<Pixel>, k: Kernel, rnd: Rounding, a: Channel)
    requires |ps| == 9
    requires IntegerKernel(k) && KeepsWholes(rnd)
    ensures WindowPixel(ps, k, 1.0, 0.0, rnd, a)
         == Rgba(Quantize(IntAccumulated(ps, k, 0, 9) as real), Quantize(IntAccumulated(ps, k, 1, 9) as real),
                 Quantize(IntAccumulated(ps, k, 2, 9) as real), a)
  {
    IntegerChannel(ps, k, rnd, 0);
    IntegerChannel(ps, k, rnd, 1);
    IntegerChannel(ps, k, rnd, 2);
  }

  /** `apply_kernel` with an integer kernel, factor 1 and bias 0, as for Sharpen,
      EdgeDetect, Sobel and Laplacian: on every interior cell each colour channel is
      `clamp(integer weighted sum of the window, 0, 255)` and alpha is the source's. */
  lemma ConvolveInteger(img: Raster, k: Kernel, rnd: Rounding, x: nat, y: nat)
    requires Interior((x, y), img.width, img.height)
    requires IntegerKernel(k) && KeepsWholes(rnd)
    ensures At(Convolve(img, k, 1.0, 0.0, rnd), x, y)
         == Rgba(Quantize(IntAccumulated(Window(img, x, y), k, 0, 9) as real),
                 Quantize(IntAccumulated(Window(img, x, y), k, 1, 9) as real),
                 Quantize(IntAccumulated(Window(img, x, y), k, 2, 9) as real),
                 At(img, x, y).a)
  {
    ConvolveAtIndex(img, k, 1.0, 0.0, rnd, x, y);
    IntegerWindowPixel(Window(img, x, y), k, rnd, At(img, x, y).a);
  }

  /** Over nine copies of `p` the integer weighted sum is the channel value times the
      partial weight sum. */
  lemma {:induction false} UniformIntAccumulated(ps: seq<Pixel>, p: Pixel, k: Kernel, c: nat, n: nat)
    requires |ps| == 9 && (forall t :: 0 <= t < 9 ==> ps[t] == p) && c < 3 && n <= 9
    ensures IntAccumulated(ps, k, c, n) == Chan(p, c) * PartialIntSum(k, n)
  {
    if n > 0 {
      UniformIntAccumulated(ps, p, k, c, n - 1);
      assert Chan(ps[n - 1], c) == Chan(p, c);
      var v, s, w := Chan(p, c), PartialIntSum(k, n - 1), Weight(k, n - 1).Floor;
      assert v * s + v * w == v * (s + w);
    }
  }

  /** Over a window of nine copies of `p`, an integer kernel's partial sums are
      computed exactly under f32 rounding: each is the colour value times the
      partial weight sum. */
  lemma UniformAccumulated(ps: seq<Pixel>, p: Pixel, k: Kernel, rnd: Rounding, c: nat, n: nat)
    requires |ps| == 9 && (forall t :: 0 <= t < 9 ==> ps[t] == p) && c < 3 && n <= 9
    requires IntegerKernel(k) && KeepsWholes(rnd)
    ensures Accumulated(ps, k, c, n, rnd) == (Chan(p, c) * PartialIntSum(k, n)) as real
  {
    ExactAccumulated(ps, k, rnd, c, n);
    UniformIntAccumulated(ps, p, k, c, n);
  }

  /** An interior output channel of `apply_kernel` over nine copies of the value `v`. */
  function SolidChannel(v: Channel, k: Kernel, factor: real, bias: real, rnd: Rounding): Channel {
    Quantize(Affine(factor, v as real * KernelSum(k), bias, rnd))
  }

  /** On a solid image an integer kernel's interior output channel depends only on
      the colour and the sum of the kernel's weights. */
  lemma ConvolveSolid(img: Raster, p: Pixel, k: Kernel, factor: real, bias: real, rnd: Rounding, x: nat, y: nat)
    requires Solid(img, p) && Interior((x, y), img.width, img.height)
    requires IntegerKernel(k) && KeepsWholes(rnd)
    ensures At(Convolve(img, k, factor, bias, rnd), x, y)
         == Rgba(SolidChannel(p.r, k, factor, bias, rnd), SolidChannel(p.g, k, factor, bias, rnd),
                 SolidChannel(p.b, k, factor, bias, rnd), p.a)
  {
    ConvolveAtIndex(img, k, factor, bias, rnd, x, y);
    SolidConvolvedAt(img, p, k, factor, bias, rnd, x, y);
  }

  lemma SolidConvolvedAt(img: Raster, p: Pixel, k: Kernel, factor: real, bias: real, rnd: Rounding, x: nat, y: nat)
    requires Solid(img, p) && Interior((x, y), img.width, img.height)
    requires IntegerKernel(k) && KeepsWholes(rnd)
    ensures ConvolvedAt(img, k, factor, bias, rnd, x, y)
         == Rgba(SolidChannel(p.r, k, factor, bias, rnd), SolidChannel(p.g, k, factor, bias, rnd),
                 SolidChannel(p.b, k, factor, bias, rnd), p.a)
  {
    SolidWindow(img, p, x, y);
    SolidAt(img, p, x, y);
    UniformWindowPixel(Window(img, x, y), p, k, factor, bias, rnd);
  }

  /** Nine copies of `p` give the solid-colour channels, whatever the alpha. */
  lemma UniformWindowPixel(ps: seq<Pixel>, p: Pixel, k: Kernel, factor: real, bias: real, rnd: Rounding)
    requires |ps| == 9 && forall t :: 0 <= t < 9 ==> ps[t] == p
    requires IntegerKernel(k) && KeepsWholes(rnd)
    ensures WindowPixel(ps, k, factor, bias, rnd, p.a)
         == Rgba(SolidChannel(p.r, k, factor, bias, rnd), SolidChannel(p.g, k, factor, bias, rnd),
                 SolidChannel(p.b, k, factor, bias, rnd), p.a)
  {
    UniformChannel(ps, p, k, factor, bias, rnd, 0);
    UniformChannel(ps, p, k, factor, bias, rnd, 1);
    UniformChannel(ps, p, k, factor, bias, rnd, 2);
  }

  lemma UniformChannel(ps: seq<Pixel>, p: Pixel, k: Kernel, factor: real, bias: real, rnd: Rounding, c: nat)
    requires |ps| == 9 && (forall t :: 0 <= t < 9 ==> ps[t] == p) && c < 3
    requires IntegerKernel(k) && KeepsWholes(rnd)
    ensures Quantize(Affine(factor, WindowSum(ps, k, c, rnd), bias, rnd)) == SolidChannel(Chan(p, c), k, factor, bias, rnd)
  {
    UniformWindowSum(ps, p, k, rnd, c);
  }

  lemma UniformWindowSum(ps: seq<Pixel>, p: Pixel, k: Kernel, rnd: Rounding, c: nat)
    requires |ps| == 9 && (forall t :: 0 <= t < 9 ==> ps[t] == p) && c < 3
    requires IntegerKernel(k) && KeepsWholes(rnd)
    ensures WindowSum(ps, k, c, rnd) == Chan(p, c) as real * KernelSum(k)
  {
    UniformAccumulated(ps, p, k, rnd, c, 9);
    PartialSumsWhole(k, 9);
    RealProduct(Chan(p, c), PartialIntSum(k, 9));
  }

  /** Sharpen, EdgeDetect, Sobel and Laplacian are integer kernels; Sharpen's weights
      sum to 1 and the others' to 0. */
  lemma NamedKernelSums()
    ensures IntegerKernel(SharpenKernel) && KernelSum(SharpenKernel) == 1.0
    ensures IntegerKernel(EdgeKernel) && KernelSum(EdgeKernel) == 0.0
    ensures IntegerKernel(SobelKernel) && KernelSum(SobelKernel) == 0.0
    ensures IntegerKernel(LaplacianKernel) && KernelSum(LaplacianKernel) == 0.0
  {
  }

  /** With f32 rounding, EdgeDetect, Sobel and Laplacian turn the interior of a
      solid image black, keeping its alpha. */
  lemma ZeroSumKernelOnSolid(img: Raster, p: Pixel, k: Kernel, rnd: Rounding, x: nat, y: nat)
    requires k == EdgeKernel || k == SobelKernel || k == LaplacianKernel
    requires Solid(img, p) && Interior((x, y), img.width, img.height) && KeepsWholes(rnd)
    ensures At(Convolve(img, k, 1.0, 0.0, rnd), x, y) == Rgba(0, 0, 0, p.a)
  {
    NamedKernelSums();
    ConvolveSolid(img, p, k, 1.0, 0.0, rnd, x, y);
    assert Whole(0.0, F32Whole);
  }

  /** With f32 rounding, Sharpen reproduces a solid colour exactly on the interior. */
  lemma SharpenOnSolid(img: Raster, p: Pixel, rnd: Rounding, x: nat, y: nat)
    requires Solid(img, p) && Interior((x, y), img.width, img.height) && KeepsWholes(rnd)
    ensures At(Convolve(img, SharpenKernel, 1.0, 0.0, rnd), x, y) == p
  {
    NamedKernelSums();
    ConvolveSolid(img, p, SharpenKernel, 1.0, 0.0, rnd, x, y);
    SharpenChannel(p.r, rnd);
    SharpenChannel(p.g, rnd);
    SharpenChannel(p.b, rnd);
  }

  lemma SharpenChannel(v: Channel, rnd: Rounding)
    requires KeepsWholes(rnd)
    ensures SolidChannel(v, SharpenKernel, 1.0, 0.0, rnd) == v
  {
    NamedKernelSums();
    assert Whole(v as real, F32Whole);
  }

  /** The unsharp value of channel `c` at an interior (x, y): five times the centre
      minus its four edge neighbours, the Sharpen kernel written out. */
  function SharpenSum(img: Raster, x: nat, y: nat, c: nat): int
    requires Interior((x, y), img.width, img.height) && c < 3
  {
    5 * Chan(At(img, x, y), c) - Chan(At(img, x, y - 1), c) - Chan(At(img, x - 1, y), c)
      - Chan(At(img, x + 1, y), c) - Chan(At(img, x, y + 1), c)
  }

  /** With f32 rounding, Sharpen on any image: every interior colour channel is the
      unsharp value clamped to 0..255, and alpha is kept. */
  lemma SharpenAt(img: Raster, rnd: Rounding, x: nat, y: nat)
    requires Interior((x, y), img.width, img.height) && KeepsWholes(rnd)
    ensures At(Convolve(img, SharpenKernel, 1.0, 0.0, rnd), x, y)
         == Rgba(Quantize(SharpenSum(img, x, y, 0) as real), Quantize(SharpenSum(img, x, y, 1) as real),
                 Quantize(SharpenSum(img, x, y, 2) as real), At(img, x, y).a)
  {
    NamedKernelSums();
    ConvolveInteger(img, SharpenKernel, rnd, x, y);
    SharpenWindow(img, x, y, 0);
    SharpenWindow(img, x, y, 1);
    SharpenWindow(img, x, y, 2);
  }

  lemma SharpenWindow(img: Raster, x: nat, y: nat, c: nat)
    requires Interior((x, y), img.width, img.height) && c < 3
    ensures IntAccumulated(Window(img, x, y), SharpenKernel, c, 9) == SharpenSum(img, x, y, c)
  {
    var ps := Window(img, x, y);
    SharpenTaps(ps, c);
    assert ps[1] == At(img, x, y - 1) && ps[3] == At(img, x - 1, y) && ps[4] == At(img, x, y);
    assert ps[5] == At(img, x + 1, y) && ps[7] == At(img, x, y + 1);
  }

  lemma SharpenTaps(ps: seq<Pixel>, c: nat)
    requires |ps| == 9 && c < 3
    ensures IntAccumulated(ps, SharpenKernel, c, 9)
         == 5 * Chan(ps[4], c) - Chan(ps[1], c) - Chan(ps[3], c) - Chan(ps[5], c) - Chan(ps[7], c)
  {
    var k := SharpenKernel;
    assert Weight(k, 0).Floor == 0 && Weight(k, 2).Floor == 0 && Weight(k, 6).Floor == 0 && Weight(k, 8).Floor == 0;
    assert Weight(k, 1).Floor == -1 && Weight(k, 3).Floor == -1 && Weight(k, 5).Floor == -1 && Weight(k, 7).Floor == -1;
    assert Weight(k, 4).Floor == 5;
    assert IntAccumulated(ps, k, c, 1) == 0;
    assert IntAccumulated(ps, k, c, 2) == -(Chan(ps[1], c) as int);
    assert IntAccumulated(ps, k, c, 3) == -(Chan(ps[1], c) as int);
    assert IntAccumulated(ps, k, c, 4) == -(Chan(ps[1], c) as int) - Chan(ps[3], c);
    assert IntAccumulated(ps, k, c, 5) == 5 * Chan(ps[4], c) - Chan(ps[1], c) - Chan(ps[3], c);
    assert IntAccumulated(ps, k, c, 6) == 5 * Chan(ps[4], c) - Chan(ps[1], c) - Chan(ps[3], c) - Chan(ps[5], c);
    assert IntAccumulated(ps, k, c, 7) == IntAccumulated(ps, k, c, 6);
  }
}
