/** `salt_pepper`: impulse noise driven by a random source. The random source is
    a parameter: `noise(i)` is what the generator yields for the pixel at flat
    index i, visited row by row. */
module Noise {
  import opened Raster

  /** A value of `rng.random::<f32>()`: uniform in [0, 1). */
  type Unit = u: real | 0.0 <= u < 1.0

  /** The draws for one pixel: the uniform value compared with the probability,
      and the coin that picks salt (white) or pepper (black) on a hit. */
  datatype Draw = Draw(u: Unit, white: bool)

  /** Whether the pixel drawing `d` is replaced at probability `p`. */
  predicate Hit(d: Draw, p: real) {
    d.u < p
  }

  /** Salt or pepper: opaque white or opaque black. */
  function Impulse(d: Draw): Pixel {
    var v: Channel := if d.white then 255 else 0;
    Rgba(v, v, v, 255)
  }

  function NoisePixel(px: Pixel, d: Draw, p: real): Pixel {
    if Hit(d, p) then Impulse(d) else px
  }

  function Noised(img: Raster, p: real, noise: nat -> Draw): (out: Raster)
    ensures out.width == img.width && out.height == img.height
  {
    var pixels := seq(|img.pixels|, i requires 0 <= i < |img.pixels| => NoisePixel(img.pixels[i], noise(i), p));
    assert |pixels| == img.width * img.height;
    Image(img.width, img.height, pixels)
  }

  /** `salt_pepper(img, p)`: copy the image, then visit the pixels row by row and
      overwrite those whose draw falls below `p`. */
  method SaltPepper(img: Raster, p: real, noise: nat -> Draw) returns (out: Raster)
    ensures out == Noised(img, p, noise)
  {
    var w, h := img.width, img.height;
    ghost var target := Noised(img, p, noise).pixels;
    var buf := new Pixel[w * h](i requires 0 <= i < w * h => img.pixels[i]);
    ghost var init := buf[..];
    assert init == img.pixels;
    var y: nat := 0;
    while y < h
      invariant FilledBefore(buf[..], target, init, w, h, 0, y)
    {
      var x: nat := 0;
      while x < w
        invariant FilledBefore(buf[..], target, init, w, h, x, y)
      {
        FillStep(buf[..], target, init, w, h, x, y);
        var i := y * w + x;
        var d := noise(i);
        if d.u < p {
          var v: Channel := if d.white then 255 else 0;
          buf[i] := Rgba(v, v, v, 255);
        } else {
          assert buf[..] == buf[..][i := target[i]];
        }
        x := x + 1;
      }
      FillNextRow(buf[..], target, init, w, h, y);
      y := y + 1;
    }
    FillDone(buf[..], target, init, w, h, y);
    out := Image(w, h, buf[..]);
  }

  /** Each pixel is either kept or replaced by opaque black or white, replaced
      exactly when its draw falls below `p`. */
  lemma SaltPepperPixel(img: Raster, p: real, noise: nat -> Draw, x: nat, y: nat)
    requires x < img.width && y < img.height
    ensures var q, d := At(Noised(img, p, noise), x, y), noise(y * img.width + x);
      && (d.u < p ==> q == (if d.white then OpaqueWhite else OpaqueBlack))
      && (d.u >= p ==> q == At(img, x, y))
  {
    CoordsOf(x, y, img.width, img.height);
  }

  /** A probability of zero or less leaves the image as it is. */
  lemma SaltPepperNever(img: Raster, p: real, noise: nat -> Draw)
    requires p <= 0.0
    ensures Noised(img, p, noise) == img
  {
    forall i | 0 <= i < |img.pixels|
      ensures Noised(img, p, noise).pixels[i] == img.pixels[i]
    {
      var u: Unit := noise(i).u;
      assert !Hit(noise(i), p);
    }
  }

  /** A probability of one or more replaces every pixel by salt or pepper. */
  lemma SaltPepperAlways(img: Raster, p: real, noise: nat -> Draw)
    requires p >= 1.0
    ensures forall i :: 0 <= i < |img.pixels| ==>
      Noised(img, p, noise).pixels[i] in {OpaqueBlack, OpaqueWhite}
  {
    forall i | 0 <= i < |img.pixels|
      ensures Noised(img, p, noise).pixels[i] in {OpaqueBlack, OpaqueWhite}
    {
      var u: Unit := noise(i).u;
      assert Hit(noise(i), p);
    }
  }
}
