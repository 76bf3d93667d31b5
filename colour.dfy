/** Point-wise colour transforms: `to_grayscale`, `binarize` (also serving the
    threshold algorithm), the library inversion and `pseudo_colors`. */
module Colour {
  import opened Raster

  // ---------------------------------------------------------------------
  // Grayscale

  /** The grey pixel `to_grayscale` writes for `p`: the luma of `p` in all three
      colour channels, alpha kept. `luma` is the f32 weighted sum
      0.299 R + 0.587 G + 0.114 B truncated to u8, taken as given. */
  function GrayPixel(luma: Pixel -> Channel, p: Pixel): Pixel {
    var l := luma(p);
    Rgba(l, l, l, p.a)
  }

  function GrayscaleImage(luma: Pixel -> Channel, img: Raster): (out: Raster)
    ensures out.width == img.width && out.height == img.height
  {
    Image(img.width, img.height, seq(|img.pixels|, i requires 0 <= i < |img.pixels| => GrayPixel(luma, img.pixels[i])))
  }

  /** `to_grayscale`: one pass over the pixels in storage order. */
  method ToGrayscale(luma: Pixel -> Channel, img: Raster) returns (out: Raster)
    ensures out == GrayscaleImage(luma, img)
  {
    var n := img.width * img.height;
    var buf := new Pixel[n](_ => Transparent);
    for i := 0 to n
      invariant forall k :: 0 <= k < i ==> buf[k] == GrayPixel(luma, img.pixels[k])
    {
      buf[i] := GrayPixel(luma, img.pixels[i]);
    }
    out := Image(img.width, img.height, buf[..]);
  }

  /** Every pixel of a grayscale image is grey (R = G = B), with the luma of the
      source pixel and the source pixel's alpha. */
  lemma GrayscalePixel(luma: Pixel -> Channel, img: Raster, x: nat, y: nat)
    requires x < img.width && y < img.height
    ensures var q := At(GrayscaleImage(luma, img), x, y);
      q.r == q.g == q.b == luma(At(img, x, y)) && q.a == At(img, x, y).a
  {
    CoordsOf(x, y, img.width, img.height);
  }

  // ---------------------------------------------------------------------
  // Binarize / Threshold

  /** `to_luma8` of the image library: the Rec. 709 luma in integer arithmetic,
      (2126 R + 7152 G + 722 B) / 10000, alpha ignored. The same weighted sum is
      the Maximum/Minimum sort key `OrderFilters.Score`; `Pipeline.LumaIsScaledScore`
      states the relation. */
  function Luma709(p: Pixel): Channel {
    (2126 * p.r + 7152 * p.g + 722 * p.b) / 10000
  }

  /** On a grey pixel the Rec. 709 luma is the grey level. */
  lemma Luma709Grey(v: Channel, a: Channel)
    ensures Luma709(Rgba(v, v, v, a)) == v
  {
    assert 2126 * v + 7152 * v + 722 * v == 10000 * v;
  }

  /** The single-channel plane `to_luma8` produces, in storage order. */
  function Luma8(img: Raster): (plane: seq<Channel>)
    ensures |plane| == |img.pixels|
  {
    seq(|img.pixels|, i requires 0 <= i < |img.pixels| => Luma709(img.pixels[i]))
  }

  /** Opaque white above the threshold, opaque black at or below it. */
  function BinaryPixel(above: bool): Pixel {
    if above then OpaqueWhite else OpaqueBlack
  }

  function BinarizedImage(luma: Pixel -> Channel, img: Raster, t: Channel): (out: Raster)
    ensures out.width == img.width && out.height == img.height
  {
    var gray := Luma8(GrayscaleImage(luma, img));
    Image(img.width, img.height, seq(|img.pixels|, i requires 0 <= i < |img.pixels| => BinaryPixel(gray[i] > t)))
  }

  /** `binarize(img, t)`: grayscale, then the library's luma plane, then a
      row-by-row pass comparing each luma with `t`. */
  method Binarize(luma: Pixel -> Channel, img: Raster, t: Channel) returns (out: Raster)
    ensures out == BinarizedImage(luma, img, t)
  {
    var grayImage := ToGrayscale(luma, img);
    var gray := Luma8(grayImage);
    var w, h := img.width, img.height;
    ghost var target := BinarizedImage(luma, img, t).pixels;
    var buf := new Pixel[w * h](_ => Transparent);
    ghost var init := buf[..];
    var y: nat := 0;
    while y < h
      invariant FilledBefore(buf[..], target, init, w, h, 0, y)
    {
      var x: nat := 0;
      while x < w
        invariant FilledBefore(buf[..], target, init, w, h, x, y)
      {
        FillStep(buf[..], target, init, w, h, x, y);
        var v: Channel := if gray[y * w + x] > t then 255 else 0;
        buf[y * w + x] := Rgba(v, v, v, 255);
        x := x + 1;
      }
      FillNextRow(buf[..], target, init, w, h, y);
      y := y + 1;
    }
    FillDone(buf[..], target, init, w, h, y);
    out := Image(w, h, buf[..]);
  }

  /** Binarizing is thresholding the grayscale luma: opaque white exactly where
      the source pixel's luma exceeds `t`, opaque black elsewhere. */
  lemma BinarizePixel(luma: Pixel -> Channel, img: Raster, t: Channel, x: nat, y: nat)
    requires x < img.width && y < img.height
    ensures At(BinarizedImage(luma, img, t), x, y) ==
      if luma(At(img, x, y)) > t then OpaqueWhite else OpaqueBlack
  {
    CoordsOf(x, y, img.width, img.height);
    var p := At(img, x, y);
    Luma709Grey(luma(p), p.a);
  }

  /** A threshold of 255 turns every pixel opaque black. */
  lemma BinarizeTopThreshold(luma: Pixel -> Channel, img: Raster)
    ensures forall i :: 0 <= i < |img.pixels| ==> BinarizedImage(luma, img, 255).pixels[i] == OpaqueBlack
  {
  }

  /** Lowering the threshold only turns pixels white. */
  lemma BinarizeMonotone(luma: Pixel -> Channel, img: Raster, lo: Channel, hi: Channel, x: nat, y: nat)
    requires lo <= hi && x < img.width && y < img.height
    ensures At(BinarizedImage(luma, img, hi), x, y) == OpaqueWhite ==> At(BinarizedImage(luma, img, lo), x, y) == OpaqueWhite
  {
    BinarizePixel(luma, img, hi, x, y);
    BinarizePixel(luma, img, lo, x, y);
  }

  /** The output is two-level, and binarizing it again at the same threshold changes
      nothing, provided black and white keep their luma. */
  lemma BinarizeIdempotent(luma: Pixel -> Channel, img: Raster, t: Channel)
    requires luma(OpaqueBlack) == 0 && luma(OpaqueWhite) == 255
    ensures forall i :: 0 <= i < |img.pixels| ==>
      BinarizedImage(luma, img, t).pixels[i] in {OpaqueBlack, OpaqueWhite}
    ensures BinarizedImage(luma, BinarizedImage(luma, img, t), t) == BinarizedImage(luma, img, t)
  {
    var once := BinarizedImage(luma, img, t);
    var twice := BinarizedImage(luma, once, t);
    Luma709Grey(0, 255);
    Luma709Grey(255, 255);
    forall i | 0 <= i < |img.pixels|
      ensures twice.pixels[i] == once.pixels[i]
    {
      assert once.pixels[i] in {OpaqueBlack, OpaqueWhite};
      assert Luma8(GrayscaleImage(luma, once))[i] == Luma709(GrayPixel(luma, once.pixels[i]));
    }
  }

  // ---------------------------------------------------------------------
  // Invert / Negative

  /** The image library's `invert`: each colour channel v becomes 255 - v, alpha kept. */
  function InvertPixel(p: Pixel): Pixel {
    Rgba(255 - p.r, 255 - p.g, 255 - p.b, p.a)
  }

  function Inverted(img: Raster): (out: Raster)
    ensures out.width == img.width && out.height == img.height
  {
    Image(img.width, img.height, seq(|img.pixels|, i requires 0 <= i < |img.pixels| => InvertPixel(img.pixels[i])))
  }

  /** Inverting twice restores the image. */
  lemma InvertInvolution(img: Raster)
    ensures Inverted(Inverted(img)) == img
  {
    assert Inverted(Inverted(img)).pixels == img.pixels;
  }

  // ---------------------------------------------------------------------
  // Pseudo colours

  /** The four-band colour ramp of `pseudo_colors` on an intensity: black to blue,
      blue to cyan, cyan to green, green to yellow; always opaque. */
  function PseudoColor(i: Channel): Pixel {
    if i < 64 then Rgba(0, 0, i * 4, 255)
    else if i < 128 then Rgba(0, (i - 64) * 4, 255, 255)
    else if i < 192 then Rgba(0, 255, 255 - (i - 128) * 4, 255)
    else Rgba((i - 192) * 4, 255, 0, 255)
  }

  function PseudoColored(img: Raster): (out: Raster)
    ensures out.width == img.width && out.height == img.height
  {
    Image(img.width, img.height, seq(|img.pixels|, i requires 0 <= i < |img.pixels| => PseudoColor(img.pixels[i].r)))
  }

  /** `pseudo_colors`: a row-by-row pass mapping each pixel's red channel through the ramp. */
  method PseudoColors(img: Raster) returns (out: Raster)
    ensures out == PseudoColored(img)
  {
    var w, h := img.width, img.height;
    ghost var target := PseudoColored(img).pixels;
    var buf := new Pixel[w * h](_ => Transparent);
    ghost var init := buf[..];
    var y: nat := 0;
    while y < h
      invariant FilledBefore(buf[..], target, init, w, h, 0, y)
    {
      var x: nat := 0;
      while x < w
        invariant FilledBefore(buf[..], target, init, w, h, x, y)
      {
        FillStep(buf[..], target, init, w, h, x, y);
        var intensity := At(img, x, y).r;
        buf[y * w + x] := PseudoColor(intensity);
        x := x + 1;
      }
      FillNextRow(buf[..], target, init, w, h, y);
      y := y + 1;
    }
    FillDone(buf[..], target, init, w, h, y);
    out := Image(w, h, buf[..]);
  }

  /** Each intensity lies in exactly one band, and the band can be read back from
      the colour: black-to-blue has no green and is not full blue, blue-to-cyan is
      full blue without full green, cyan-to-green is full green with some blue, and
      green-to-yellow is full green without blue. Red is 0 below 192. */
  lemma PseudoColorBands(i: Channel)
    ensures var p := PseudoColor(i);
      && (i < 64 <==> p.g == 0 && p.b < 255)
      && (64 <= i < 128 <==> p.g < 255 && p.b == 255)
      && (128 <= i < 192 <==> p.g == 255 && p.b > 0)
      && (192 <= i <==> p.g == 255 && p.b == 0)
      && (i < 192 ==> p.r == 0)
  {
  }

  /** Distinct intensities get distinct colours: the ramp loses no information. */
  lemma PseudoColorInjective(i: Channel, j: Channel)
    ensures PseudoColor(i) == PseudoColor(j) ==> i == j
  {
  }

  /** Neighbouring intensities get colours at most 4 apart in every channel, and
      the red and green channels never decrease along the ramp. */
  lemma PseudoColorSmooth(i: Channel, j: Channel)
    ensures j == i + 1 ==> var p, q := PseudoColor(i), PseudoColor(j);
      -4 <= q.r - p.r <= 4 && -4 <= q.g - p.g <= 4 && -4 <= q.b - p.b <= 4
    ensures i <= j ==> PseudoColor(i).r <= PseudoColor(j).r && PseudoColor(i).g <= PseudoColor(j).g
    ensures PseudoColor(i).a == 255
  {
  }

  /** Only the red channel is read: images that agree in red get the same output. */
  lemma PseudoColorsReadRedOnly(a: Raster, b: Raster)
    requires a.width == b.width && a.height == b.height
    requires forall i :: 0 <= i < |a.pixels| ==> a.pixels[i].r == b.pixels[i].r
    ensures PseudoColored(a) == PseudoColored(b)
  {
  }
}
