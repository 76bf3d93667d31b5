/** RGBA8 raster images: the substrate every transform reads and writes.
    An image is row-major with its origin at the top left; the pixel at
    column x and row y sits at flat index y * width + x. */
module Raster {

  /** An 8-bit channel value (Rust's u8). */
  type Channel = c: int | 0 <= c <= 255

  datatype Pixel = Rgba(r: Channel, g: Channel, b: Channel, a: Channel)

  /** The value a freshly allocated ImageBuffer holds in every pixel. */
  const Transparent: Pixel := Rgba(0, 0, 0, 0)
  const OpaqueBlack: Pixel := Rgba(0, 0, 0, 255)
  const OpaqueWhite: Pixel := Rgba(255, 255, 255, 255)

  datatype Image = Image(width: nat, height: nat, pixels: seq<Pixel>)

  predicate WellFormed(img: Image) {
    img.width >= 1 && img.height >= 1 && |img.pixels| == img.width * img.height
  }

  /** A decoded image: both dimensions at least 1 and a buffer of exactly width * height pixels. */
  type Raster = img: Image | WellFormed(img) witness Image(1, 1, [Transparent])

  /** Channel `c` of a pixel, as the source's `p[c]` indexing. */
  function Chan(p: Pixel, c: nat): Channel
    requires c < 4
  {
    if c == 0 then p.r else if c == 1 then p.g else if c == 2 then p.b else p.a
  }

  /** Rust's `v.clamp(0.0, 255.0) as u8`: clamp into the channel range, then
      truncate toward zero (which, on the clamped value, is the floor). */
  function Quantize(v: real): (c: Channel)
    ensures 0.0 <= v <= 255.0 ==> c as real <= v < c as real + 1.0
    ensures v < 0.0 ==> c == 0
    ensures v > 255.0 ==> c == 255
  {
    if v <= 0.0 then 0 else if v >= 255.0 then 255 else v.Floor
  }

  // ---------------------------------------------------------------------
  // Flat index <-> coordinates

  /** Multiplication by a width is monotone, strictly by at least one width. */
  lemma MulMonotone(a: nat, b: nat, w: nat)
    ensures a <= b ==> a * w <= b * w
    ensures a < b ==> a * w + w <= b * w
  {
    if a < b {
      var d := b - a;
      assert b * w == a * w + d * w;
      assert d * w == (d - 1) * w + w;
    }
  }

  /** The (column, row) of flat index `i` in a `w`-wide, `h`-high image. */
  function Coords(i: nat, w: nat, h: nat): (c: (nat, nat))
    requires i < w * h
    ensures c.0 < w && c.1 < h && c.1 * w + c.0 == i
  {
    var q, r := i / w, i % w;
    MulMonotone(h, q, w);
    (r, q)
  }

  /** Row-major order is a bijection: column x of row y is flat index y * w + x and back. */
  lemma CoordsOf(x: nat, y: nat, w: nat, h: nat)
    requires x < w && y < h
    ensures y * w + x < w * h
    ensures Coords(y * w + x, w, h) == (x, y)
  {
    MulMonotone(y, h, w);
    var c := Coords(y * w + x, w, h);
    MulMonotone(c.1, y, w);
    MulMonotone(y, c.1, w);
  }

  /** The pixel at column x, row y (the source's `get_pixel(x, y)`). */
  function At(img: Raster, x: nat, y: nat): Pixel
    requires x < img.width && y < img.height
  {
    CoordsOf(x, y, img.width, img.height);
    img.pixels[y * img.width + x]
  }

  /** Row-major visiting order: cell `c` is reached before the loop cursor (x, y). */
  predicate Before(c: (nat, nat), x: int, y: int) {
    c.1 < y || (c.1 == y && c.0 < x)
  }

  /** A cell a 3x3 window can be centred on (rows and columns 1 .. last - 1). */
  predicate Interior(c: (nat, nat), w: nat, h: nat) {
    1 <= c.0 && c.0 + 1 < w && 1 <= c.1 && c.1 + 1 < h
  }

  /** Loop state of the pixel loops: every cell visited before (x, y) holds its
      value in `target`, every other cell still holds its value in `init`. */
  ghost predicate FilledBefore(buf: seq<Pixel>, target: seq<Pixel>, init: seq<Pixel>,
                               w: nat, h: nat, x: int, y: int)
  {
    |buf| == |target| == |init| == w * h &&
    forall i :: 0 <= i < w * h ==>
      buf[i] == if Before(Coords(i, w, h), x, y) then target[i] else init[i]
  }

  /** Writing the target value at the cursor moves the cursor one cell right. */
  lemma FillStep(buf: seq<Pixel>, target: seq<Pixel>, init: seq<Pixel>, w: nat, h: nat, x: nat, y: nat)
    requires x < w && y < h
    requires FilledBefore(buf, target, init, w, h, x, y)
    ensures 0 <= y * w + x < w * h
    ensures FilledBefore(buf[y * w + x := target[y * w + x]], target, init, w, h, x + 1, y)
  {
    CoordsOf(x, y, w, h);
  }

  /** Past the end of a row the cursor moves to the start of the next one. */
  lemma FillNextRow(buf: seq<Pixel>, target: seq<Pixel>, init: seq<Pixel>, w: nat, h: nat, y: nat)
    requires FilledBefore(buf, target, init, w, h, w, y)
    ensures FilledBefore(buf, target, init, w, h, 0, y + 1)
  {
  }

  /** The interior loops skip the last column of a row and the first of the next;
      that is sound when the target agrees with the initial buffer on the border. */
  lemma FillNextInteriorRow(buf: seq<Pixel>, target: seq<Pixel>, init: seq<Pixel>,
                            w: nat, h: nat, x: nat, y: nat)
    requires x + 1 >= w
    requires FilledBefore(buf, target, init, w, h, x, y)
    requires forall i :: 0 <= i < w * h && !Interior(Coords(i, w, h), w, h) ==> target[i] == init[i]
    ensures FilledBefore(buf, target, init, w, h, 1, y + 1)
  {
  }

  /** Once the cursor is past the last row, the buffer is the target. */
  lemma FillDone(buf: seq<Pixel>, target: seq<Pixel>, init: seq<Pixel>, w: nat, h: nat, y: nat)
    requires h <= y
    requires FilledBefore(buf, target, init, w, h, 0, y)
    ensures buf == target
  {
    assert forall i :: 0 <= i < w * h ==> buf[i] == target[i];
  }

  /** The interior loops stop before the last row; the rest is border. */
  lemma FillDoneInterior(buf: seq<Pixel>, target: seq<Pixel>, init: seq<Pixel>, w: nat, h: nat, y: nat)
    requires h <= y + 1
    requires FilledBefore(buf, target, init, w, h, 1, y)
    requires forall i :: 0 <= i < w * h && !Interior(Coords(i, w, h), w, h) ==> target[i] == init[i]
    ensures buf == target
  {
    assert forall i :: 0 <= i < w * h ==> buf[i] == target[i];
  }

  /** Starting the interior loops at (1, 1) skips row 0 and the first cell of row 1. */
  lemma FillStartInterior(init: seq<Pixel>, target: seq<Pixel>, w: nat, h: nat)
    requires |target| == |init| == w * h
    requires forall i :: 0 <= i < w * h && !Interior(Coords(i, w, h), w, h) ==> target[i] == init[i]
    ensures FilledBefore(init, target, init, w, h, 1, 1)
  {
  }

  /** Every pixel of the image is `p`. */
  predicate Solid(img: Raster, p: Pixel) {
    forall i :: 0 <= i < |img.pixels| ==> img.pixels[i] == p
  }

  lemma SolidAt(img: Raster, p: Pixel, x: nat, y: nat)
    requires Solid(img, p) && x < img.width && y < img.height
    ensures At(img, x, y) == p
  {
    CoordsOf(x, y, img.width, img.height);
  }

  // ---------------------------------------------------------------------
  // 3x3 neighbourhoods

  /** Tap `t` (0 .. 8) of the 3x3 window centred on (x, y), in the source's
      sampling order: rows top to bottom, within a row left to right. */
  function Tap(img: Raster, x: nat, y: nat, t: nat): Pixel
    requires Interior((x, y), img.width, img.height) && t < 9
  {
    At(img, x + t % 3 - 1, y + t / 3 - 1)
  }

  /** The nine neighbourhood pixels in sampling order. */
  function Window(img: Raster, x: nat, y: nat): (ps: seq<Pixel>)
    requires Interior((x, y), img.width, img.height)
    ensures |ps| == 9
  {
    seq(9, t requires 0 <= t < 9 => Tap(img, x, y, t))
  }

  /** The nested `dy`/`dx` loops that push the nine neighbours of (x, y) into a vector. */
  method Neighbourhood(img: Raster, x: nat, y: nat) returns (ps: seq<Pixel>)
    requires Interior((x, y), img.width, img.height)
    ensures ps == Window(img, x, y)
    ensures ps[4] == At(img, x, y) && ps[8] == At(img, x + 1, y + 1)
  {
    ps := [];
    var dy := -1;
    while dy <= 1
      invariant -1 <= dy <= 2
      invariant |ps| == 3 * (dy + 1)
      invariant forall t :: 0 <= t < |ps| ==> ps[t] == Tap(img, x, y, t)
    {
      var dx := -1;
      while dx <= 1
        invariant -1 <= dx <= 2
        invariant |ps| == 3 * (dy + 1) + (dx + 1)
        invariant forall t :: 0 <= t < |ps| ==> ps[t] == Tap(img, x, y, t)
      {
        ps := ps + [At(img, x + dx, y + dy)];
        dx := dx + 1;
      }
      dy := dy + 1;
    }
  }

  /** Every neighbourhood of a solid image is nine copies of its colour. */
  lemma SolidWindow(img: Raster, p: Pixel, x: nat, y: nat)
    requires Solid(img, p) && Interior((x, y), img.width, img.height)
    ensures forall t :: 0 <= t < 9 ==> Window(img, x, y)[t] == p
  {
    forall t | 0 <= t < 9
      ensures Window(img, x, y)[t] == p
    {
      SolidAt(img, p, x + t % 3 - 1, y + t / 3 - 1);
    }
  }
}
