/** The geometric resampler: 2x upscaling by nearest neighbour and by bilinear
    interpolation (`zoom_nn` and `zoom_bilinear`). */
module Resample {
  import opened Raster

  // ---------------------------------------------------------------------
  // Nearest neighbour

  /** The image `zoom_nn` builds: twice as wide and twice as high, output cell
      (x, y) copied from source cell (x / 2, y / 2). */
  function ZoomNearest(img: Raster): Raster
  {
    var w, h := 2 * img.width, 2 * img.height;
    Image(w, h, seq(w * h, i requires 0 <= i < w * h =>
      var c := Coords(i, w, h); At(img, c.0 / 2, c.1 / 2)))
  }

  method ZoomNN(img: Raster) returns (out: Raster)
    ensures out == ZoomNearest(img)
  {
    var w, h := img.width, img.height;
    var nw, nh := w * 2, h * 2;
    ghost var target := ZoomNearest(img).pixels;
    var buf := new Pixel[nw * nh](_ => Transparent);
    ghost var init := buf[..];
    var y: nat := 0;
    while y < nh
      invariant 0 <= y <= nh
      invariant FilledBefore(buf[..], target, init, nw, nh, 0, y)
    {
      var x: nat := 0;
      while x < nw
        invariant 0 <= x <= nw
        invariant FilledBefore(buf[..], target, init, nw, nh, x, y)
      {
        FillStep(buf[..], target, init, nw, nh, x, y);
        CoordsOf(x, y, nw, nh);
        buf[y * nw + x] := At(img, x / 2, y / 2);
        x := x + 1;
      }
      FillNextRow(buf[..], target, init, nw, nh, y);
      y := y + 1;
    }
    FillDone(buf[..], target, init, nw, nh, y);
    out := Image(nw, nh, buf[..]);
  }

  /** Output dimensions are doubled and output pixel (x, y) is source pixel (x / 2, y / 2). */
  lemma ZoomNearestPixel(img: Raster, x: nat, y: nat)
    requires x < 2 * img.width && y < 2 * img.height
    ensures ZoomNearest(img).width == 2 * img.width && ZoomNearest(img).height == 2 * img.height
    ensures At(ZoomNearest(img), x, y) == At(img, x / 2, y / 2)
  {
    CoordsOf(x, y, 2 * img.width, 2 * img.height);
  }

  /** Every 2x2 output block is a solid copy of one source pixel. */
  lemma ZoomNearestBlock(img: Raster, i: nat, j: nat)
    requires i < img.width && j < img.height
    ensures var z := ZoomNearest(img);
      && At(z, 2 * i, 2 * j) == At(img, i, j)
      && At(z, 2 * i + 1, 2 * j) == At(img, i, j)
      && At(z, 2 * i, 2 * j + 1) == At(img, i, j)
      && At(z, 2 * i + 1, 2 * j + 1) == At(img, i, j)
  {
    ZoomNearestPixel(img, 2 * i, 2 * j);
    ZoomNearestPixel(img, 2 * i + 1, 2 * j);
    ZoomNearestPixel(img, 2 * i, 2 * j + 1);
    ZoomNearestPixel(img, 2 * i + 1, 2 * j + 1);
  }

  // ---------------------------------------------------------------------
  // Bilinear

  /** `a * (1 - t) + b * t`, the source's linear blend. */
  function Lerp(a: real, b: real, t: real): real {
    a * (1.0 - t) + b * t
  }

  /** One channel of the bilinear blend of the four corner values with fractional
      offsets `dx`, `dy`, clamped and truncated to u8. */
  function Blend(c00: Channel, c10: Channel, c01: Channel, c11: Channel, dx: real, dy: real): Channel {
    var v0 := Lerp(c00 as real, c10 as real, dx);
    var v1 := Lerp(c01 as real, c11 as real, dx);
    Quantize(Lerp(v0, v1, dy))
  }

  function Min(a: int, b: int): int { if a <= b then a else b }

  /** Output pixel (x, y) of `zoom_bilinear`: source coordinate (x / 2.0, y / 2.0),
      its floor as base cell, the +1 neighbour clamped to the last column / row. */
  function ZoomBilinearAt(img: Raster, x: nat, y: nat): Pixel
    requires x < 2 * img.width && y < 2 * img.height
  {
    var fx, fy := x as real / 2.0, y as real / 2.0;
    var x0, y0 := fx.Floor, fy.Floor;
    var x1, y1 := Min(x0 + 1, img.width - 1), Min(y0 + 1, img.height - 1);
    var dx, dy := fx - x0 as real, fy - y0 as real;
    BlendPixel(At(img, x0, y0), At(img, x1, y0), At(img, x0, y1), At(img, x1, y1), dx, dy)
  }

  /** The channel-wise blend of four corner pixels. */
  function BlendPixel(p00: Pixel, p10: Pixel, p01: Pixel, p11: Pixel, dx: real, dy: real): Pixel {
    Rgba(Blend(p00.r, p10.r, p01.r, p11.r, dx, dy),
         Blend(p00.g, p10.g, p01.g, p11.g, dx, dy),
         Blend(p00.b, p10.b, p01.b, p11.b, dx, dy),
         Blend(p00.a, p10.a, p01.a, p11.a, dx, dy))
  }

  function BilinearZoomed(img: Raster): Raster
  {
    var w, h := 2 * img.width, 2 * img.height;
    Image(w, h, seq(w * h, i requires 0 <= i < w * h =>
      var c := Coords(i, w, h); ZoomBilinearAt(img, c.0, c.1)))
  }

  /** The body of `zoom_bilinear`'s pixel loop: corner lookup and the per-channel blend loop. */
  method InterpolatePixel(img: Raster, x: nat, y: nat) returns (p: Pixel)
    requires x < 2 * img.width && y < 2 * img.height
    ensures p == ZoomBilinearAt(img, x, y)
  {
    var fx, fy := x as real / 2.0, y as real / 2.0;
    var x0, y0 := fx.Floor, fy.Floor;
    var x1, y1 := Min(x0 + 1, img.width - 1), Min(y0 + 1, img.height - 1);
    var dx, dy := fx - x0 as real, fy - y0 as real;
    var p00, p10, p01, p11 := At(img, x0, y0), At(img, x1, y0), At(img, x0, y1), At(img, x1, y1);
    var rgba := new Channel[4];
    for i := 0 to 4
      invariant forall k :: 0 <= k < i ==>
        rgba[k] == Blend(Chan(p00, k), Chan(p10, k), Chan(p01, k), Chan(p11, k), dx, dy)
    {
      var v0 := Lerp(Chan(p00, i) as real, Chan(p10, i) as real, dx);
      var v1 := Lerp(Chan(p01, i) as real, Chan(p11, i) as real, dx);
      rgba[i] := Quantize(Lerp(v0, v1, dy));
    }
    p := Rgba(rgba[0], rgba[1], rgba[2], rgba[3]);
  }

  method ZoomBilinear(img: Raster) returns (out: Raster)
    ensures out == BilinearZoomed(img)
  {
    var w, h := img.width, img.height;
    var nw, nh := w * 2, h * 2;
    ghost var target := BilinearZoomed(img).pixels;
    var buf := new Pixel[nw * nh](_ => Transparent);
    ghost var init := buf[..];
    var y: nat := 0;
    while y < nh
      invariant 0 <= y <= nh
      invariant FilledBefore(buf[..], target, init, nw, nh, 0, y)
    {
      var x: nat := 0;
      while x < nw
        invariant 0 <= x <= nw
        invariant FilledBefore(buf[..], target, init, nw, nh, x, y)
      {
        var p := InterpolatePixel(img, x, y);
        FillStep(buf[..], target, init, nw, nh, x, y);
        CoordsOf(x, y, nw, nh);
        buf[y * nw + x] := p;
        x := x + 1;
      }
      FillNextRow(buf[..], target, init, nw, nh, y);
      y := y + 1;
    }
    FillDone(buf[..], target, init, nw, nh, y);
    out := Image(nw, nh, buf[..]);
  }

  /** The integer reading of `zoom_bilinear` for half-step offsets: the base value
      at an even/even cell, the floored mean of two neighbours when exactly one
      coordinate is odd, the floored mean of all four when both are. */
  function HalfStepBlend(c00: Channel, c10: Channel, c01: Channel, c11: Channel, oddX: bool, oddY: bool): Channel
  {
    if !oddX && !oddY then c00
    else if oddX && !oddY then (c00 + c10) / 2
    else if !oddX && oddY then (c00 + c01) / 2
    else (c00 + c10 + c01 + c11) / 4
  }

  /** With offsets 0 or 1/2 the f32 blend is exact: it equals the integer reading. */
  lemma BlendHalfSteps(c00: Channel, c10: Channel, c01: Channel, c11: Channel, oddX: bool, oddY: bool)
    ensures Blend(c00, c10, c01, c11, if oddX then 0.5 else 0.0, if oddY then 0.5 else 0.0)
         == HalfStepBlend(c00, c10, c01, c11, oddX, oddY)
  {
    var dx, dy := if oddX then 0.5 else 0.0, if oddY then 0.5 else 0.0;
    var v := Lerp(Lerp(c00 as real, c10 as real, dx), Lerp(c01 as real, c11 as real, dx), dy);
    var n, d := if !oddX && !oddY then c00
                else if oddX && !oddY then c00 + c10
                else if !oddX && oddY then c00 + c01
                else c00 + c10 + c01 + c11,
                if !oddX && !oddY then 1 else if oddX && oddY then 4 else 2;
    assert v == n as real / d as real;
    var q := n / d;
    assert q as real <= v < q as real + 1.0 by {
      assert n == d * q + n % d;
    }
  }

  /** The source pixel cell, its clamped +1 neighbours, and the integer blend of them. */
  function HalfStepPixel(img: Raster, x: nat, y: nat): Pixel
    requires x < 2 * img.width && y < 2 * img.height
  {
    var x0, y0 := x / 2, y / 2;
    var x1, y1 := Min(x0 + 1, img.width - 1), Min(y0 + 1, img.height - 1);
    HalfStepBlendPixel(At(img, x0, y0), At(img, x1, y0), At(img, x0, y1), At(img, x1, y1), x % 2 == 1, y % 2 == 1)
  }

  /** The channel-wise integer half-step blend of four corner pixels. */
  function HalfStepBlendPixel(p00: Pixel, p10: Pixel, p01: Pixel, p11: Pixel, oddX: bool, oddY: bool): Pixel {
    Rgba(HalfStepBlend(p00.r, p10.r, p01.r, p11.r, oddX, oddY),
         HalfStepBlend(p00.g, p10.g, p01.g, p11.g, oddX, oddY),
         HalfStepBlend(p00.b, p10.b, p01.b, p11.b, oddX, oddY),
         HalfStepBlend(p00.a, p10.a, p01.a, p11.a, oddX, oddY))
  }

  /** The f32 source coordinate x / 2.0 has floor x / 2 and fractional part 0 or 1/2. */
  lemma HalfCoordinate(x: nat)
    ensures (x as real / 2.0).Floor == x / 2
    ensures x as real / 2.0 - (x / 2) as real == if x % 2 == 1 then 0.5 else 0.0
  {
    assert x == 2 * (x / 2) + x % 2;
    assert x as real / 2.0 == (x / 2) as real + (x % 2) as real / 2.0;
  }

  /** Each pixel of the f32 formula equals the exact integer blend. */
  lemma BilinearPixelExact(img: Raster, x: nat, y: nat)
    requires x < 2 * img.width && y < 2 * img.height
    ensures ZoomBilinearAt(img, x, y) == HalfStepPixel(img, x, y)
  {
    BilinearCorners(img, x, y);
    CornersAtHalfSteps(img, x, y);
    HalfStepCorners(img, x, y);
  }

  /** At the corners of output (x, y) the real blend with the offsets of (x, y) is
      the integer half-step blend. */
  lemma CornersAtHalfSteps(img: Raster, x: nat, y: nat)
    requires x < 2 * img.width && y < 2 * img.height
    ensures var x0, y0 := x / 2, y / 2;
      var x1, y1 := Min(x0 + 1, img.width - 1), Min(y0 + 1, img.height - 1);
      BlendPixel(At(img, x0, y0), At(img, x1, y0), At(img, x0, y1), At(img, x1, y1),
                 x as real / 2.0 - x0 as real, y as real / 2.0 - y0 as real)
        == HalfStepBlendPixel(At(img, x0, y0), At(img, x1, y0), At(img, x0, y1), At(img, x1, y1),
                              x % 2 == 1, y % 2 == 1)
  {
    var x0, y0 := x / 2, y / 2;
    var x1, y1 := Min(x0 + 1, img.width - 1), Min(y0 + 1, img.height - 1);
    HalfCoordinate(x);
    HalfCoordinate(y);
    BlendPixelHalfSteps(At(img, x0, y0), At(img, x1, y0), At(img, x0, y1), At(img, x1, y1),
                        x as real / 2.0 - x0 as real, y as real / 2.0 - y0 as real, x % 2 == 1, y % 2 == 1);
  }

  /** The half-step pixel of output (x, y) blends the corners of its base cell. */
  lemma HalfStepCorners(img: Raster, x: nat, y: nat)
    requires x < 2 * img.width && y < 2 * img.height
    ensures var x0, y0 := x / 2, y / 2;
      var x1, y1 := Min(x0 + 1, img.width - 1), Min(y0 + 1, img.height - 1);
      HalfStepPixel(img, x, y)
        == HalfStepBlendPixel(At(img, x0, y0), At(img, x1, y0), At(img, x0, y1), At(img, x1, y1),
                              x % 2 == 1, y % 2 == 1)
  {
  }

  /** The base cell of output (x, y) is (x / 2, y / 2). */
  lemma BilinearCorners(img: Raster, x: nat, y: nat)
    requires x < 2 * img.width && y < 2 * img.height
    ensures var x0, y0 := x / 2, y / 2;
      var x1, y1 := Min(x0 + 1, img.width - 1), Min(y0 + 1, img.height - 1);
      ZoomBilinearAt(img, x, y)
        == BlendPixel(At(img, x0, y0), At(img, x1, y0), At(img, x0, y1), At(img, x1, y1),
                      x as real / 2.0 - x0 as real, y as real / 2.0 - y0 as real)
  {
    HalfCoordinate(x);
    HalfCoordinate(y);
  }

  lemma BlendPixelHalfSteps(p00: Pixel, p10: Pixel, p01: Pixel, p11: Pixel, dx: real, dy: real, oddX: bool, oddY: bool)
    requires dx == (if oddX then 0.5 else 0.0) && dy == (if oddY then 0.5 else 0.0)
    ensures BlendPixel(p00, p10, p01, p11, dx, dy) == HalfStepBlendPixel(p00, p10, p01, p11, oddX, oddY)
  {
    BlendHalfSteps(p00.r, p10.r, p01.r, p11.r, oddX, oddY);
    BlendHalfSteps(p00.g, p10.g, p01.g, p11.g, oddX, oddY);
    BlendHalfSteps(p00.b, p10.b, p01.b, p11.b, oddX, oddY);
    BlendHalfSteps(p00.a, p10.a, p01.a, p11.a, oddX, oddY);
  }

  /** The bilinear zoom doubles both dimensions and each output pixel is the exact
      integer blend of its (clamped, hence in-range) source neighbours. */
  lemma ZoomBilinearExact(img: Raster, x: nat, y: nat)
    requires x < 2 * img.width && y < 2 * img.height
    ensures BilinearZoomed(img).width == 2 * img.width && BilinearZoomed(img).height == 2 * img.height
    ensures At(BilinearZoomed(img), x, y) == HalfStepPixel(img, x, y)
  {
    BilinearZoomedAt(img, x, y);
    BilinearPixelExact(img, x, y);
  }

  lemma BilinearZoomedAt(img: Raster, x: nat, y: nat)
    requires x < 2 * img.width && y < 2 * img.height
    ensures BilinearZoomed(img).width == 2 * img.width && BilinearZoomed(img).height == 2 * img.height
    ensures At(BilinearZoomed(img), x, y) == ZoomBilinearAt(img, x, y)
  {
    CoordsOf(x, y, 2 * img.width, 2 * img.height);
  }

  /** At even/even output cells the bilinear zoom reproduces the source pixel exactly. */
  lemma ZoomBilinearKeepsSamples(img: Raster, i: nat, j: nat)
    requires i < img.width && j < img.height
    ensures At(BilinearZoomed(img), 2 * i, 2 * j) == At(img, i, j)
  {
    ZoomBilinearExact(img, 2 * i, 2 * j);
  }
}
