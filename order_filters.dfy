/** Order-statistic filters over the 3x3 neighbourhood: `median_filter`,
    `maximum_filter` and `minimum_filter`. */
module OrderFilters {
  import opened Raster

  // ---------------------------------------------------------------------
  // Sorting a channel vector

  predicate IsSorted(s: seq<int>) {
    forall i, j :: 0 <= i < j < |s| ==> s[i] <= s[j]
  }

  /** `v` inserted into `s` in front of the first element not below it (into a
      sorted `s`: at its place). */
  function Insert(v: Channel, s: seq<Channel>): (r: seq<Channel>)
    ensures |r| == |s| + 1
  {
    if s == [] then [v]
    else if v <= s[0] then [v] + s
    else [s[0]] + Insert(v, s[1..])
  }

  /** The ascending rearrangement of `s` (what `sort_unstable` leaves in the vector). */
  function SortAscending(s: seq<Channel>): (r: seq<Channel>)
    ensures |r| == |s|
  {
    if s == [] then [] else Insert(s[0], SortAscending(s[1..]))
  }

  /** Insertion adds exactly `v` to the multiset of values. */
  lemma {:induction false} InsertPermutes(v: Channel, s: seq<Channel>)
    ensures multiset(Insert(v, s)) == multiset(s) + multiset{v}
  {
    if s != [] && v > s[0] {
      InsertPermutes(v, s[1..]);
      assert s == [s[0]] + s[1..];
    }
  }

  /** Insertion into a sorted sequence keeps it sorted. */
  lemma {:induction false} InsertSorted(v: Channel, s: seq<Channel>)
    requires IsSorted(s)
    ensures IsSorted(Insert(v, s))
  {
    if s != [] && v > s[0] {
      var tail := Insert(v, s[1..]);
      InsertSorted(v, s[1..]);
      InsertPermutes(v, s[1..]);
      forall j | 0 <= j < |tail|
        ensures s[0] <= tail[j]
      {
        AtLeastFirst(v, s, tail[j]);
      }
      ConsSorted(s[0], tail);
    }
  }

  /** A sorted sequence stays sorted with a value no larger than its elements in front. */
  lemma ConsSorted(h: int, t: seq<int>)
    requires IsSorted(t) && forall j :: 0 <= j < |t| ==> h <= t[j]
    ensures IsSorted([h] + t)
  {
    var r := [h] + t;
    forall i, j | 0 <= i < j < |r|
      ensures r[i] <= r[j]
    {
      assert r[j] == t[j - 1];
      if i > 0 {
        assert r[i] == t[i - 1];
      }
    }
  }

  /** A value of `s[1..]` plus `v`, for `v` above the head of a sorted `s`, is not
      below that head. */
  lemma AtLeastFirst(v: Channel, s: seq<Channel>, e: Channel)
    requires IsSorted(s) && s != [] && v > s[0]
    requires e in multiset(s[1..]) + multiset{v}
    ensures s[0] <= e
  {
    if e != v {
      assert e in s[1..];
      var k :| 0 <= k < |s[1..]| && s[1..][k] == e;
      assert s[k + 1] == e;
    }
  }

  /** `SortAscending` yields a sorted permutation of its input. */
  lemma {:induction false} SortAscendingSorted(s: seq<Channel>)
    ensures IsSorted(SortAscending(s))
    ensures multiset(SortAscending(s)) == multiset(s)
  {
    if s != [] {
      SortAscendingSorted(s[1..]);
      InsertSorted(s[0], SortAscending(s[1..]));
      InsertPermutes(s[0], SortAscending(s[1..]));
      assert s == [s[0]] + s[1..];
    }
  }

  /** A sequence has exactly one ascending rearrangement, so any sort, stable or
      not, leaves the same vector behind. */
  lemma {:induction false} SortedUnique(a: seq<int>, b: seq<int>)
    requires IsSorted(a) && IsSorted(b) && multiset(a) == multiset(b)
    ensures a == b
  {
    assert |a| == |multiset(a)| == |multiset(b)| == |b|;
    if a != [] {
      HeadIsLeast(a, b);
      HeadIsLeast(b, a);
      assert a == [a[0]] + a[1..] && b == [b[0]] + b[1..];
      assert multiset(a[1..]) == multiset(a) - multiset{a[0]};
      assert multiset(b[1..]) == multiset(b) - multiset{b[0]};
      SortedUnique(a[1..], b[1..]);
    }
  }

  /** The head of a sorted sequence is at most every value of a rearrangement of it. */
  lemma HeadIsLeast(a: seq<int>, b: seq<int>)
    requires IsSorted(a) && a != [] && b != [] && multiset(a) == multiset(b)
    ensures a[0] <= b[0]
  {
    assert b[0] in multiset(a);
    var k :| 0 <= k < |a| && a[k] == b[0];
  }

  // ---------------------------------------------------------------------
  // Median

  /** Channel `c` of every pixel of `ps`, in order (the vectors `rs`, `gs`, `bs`). */
  function Channels(ps: seq<Pixel>, c: nat): seq<Channel>
    requires c < 3
  {
    seq(|ps|, i requires 0 <= i < |ps| => Chan(ps[i], c))
  }

  /** Index 4 of the sorted nine values. */
  function MedianOf(vs: seq<Channel>): (m: Channel)
    requires |vs| == 9
  {
    SortAscending(vs)[4]
  }

  /** The median is the fifth smallest value: whatever ascending rearrangement of the
      nine values a sort produces, the median sits at its index 4. It is one of the
      nine values. */
  lemma MedianIsFifthSmallest(vs: seq<Channel>, t: seq<int>)
    requires |vs| == 9 && IsSorted(t) && multiset(t) == multiset(vs)
    ensures |t| == 9 && t[4] == MedianOf(vs)
    ensures MedianOf(vs) in vs
  {
    assert |t| == |multiset(t)| == |multiset(vs)| == |vs|;
    SortAscendingSorted(vs);
    SortedUnique(t, SortAscending(vs));
    assert MedianOf(vs) in multiset(vs);
  }

  /** The median lies within any bounds that hold for all nine values; in particular
      nine equal values have that value as median. */
  lemma MedianBounds(vs: seq<Channel>, lo: int, hi: int)
    requires |vs| == 9 && forall i :: 0 <= i < 9 ==> lo <= vs[i] <= hi
    ensures lo <= MedianOf(vs) <= hi
  {
    SortAscendingSorted(vs);
    MedianIsFifthSmallest(vs, SortAscending(vs));
  }

  /** Output pixel (x, y) of `median_filter`: on interior cells each colour channel is
      the median of that channel over the window and alpha is the last sampled
      neighbour's, that of (x + 1, y + 1); the border is never written. */
  function MedianAt(img: Raster, x: nat, y: nat): Pixel
    requires x < img.width && y < img.height
  {
    if Interior((x, y), img.width, img.height) then MedianPixelOf(Window(img, x, y))
    else Transparent
  }

  /** Channel-wise median of nine neighbours; alpha is that of the last one. */
  function MedianPixelOf(ps: seq<Pixel>): Pixel
    requires |ps| == 9
  {
    Rgba(MedianOf(Channels(ps, 0)), MedianOf(Channels(ps, 1)), MedianOf(Channels(ps, 2)), ps[8].a)
  }

  function MedianFiltered(img: Raster): Raster
  {
    var w, h := img.width, img.height;
    Image(w, h, seq(w * h, i requires 0 <= i < w * h =>
      var c := Coords(i, w, h); MedianAt(img, c.0, c.1)))
  }

  lemma MedianCells(img: Raster)
    ensures var out := MedianFiltered(img);
      && out.width == img.width && out.height == img.height
      && forall i :: 0 <= i < img.width * img.height && !Interior(Coords(i, img.width, img.height), img.width, img.height)
           ==> out.pixels[i] == Transparent
  {
  }

  lemma MedianAtIndex(img: Raster, x: nat, y: nat)
    requires x < img.width && y < img.height
    ensures y * img.width + x < img.width * img.height
    ensures MedianFiltered(img).pixels[y * img.width + x] == MedianAt(img, x, y)
  {
    CoordsOf(x, y, img.width, img.height);
  }

  /** The neighbour loops of `median_filter`: push each neighbour's red, green and
      blue into three vectors and keep the alpha of the last one. */
  method ChannelVectors(img: Raster, x: nat, y: nat) returns (rs: seq<Channel>, gs: seq<Channel>, bs: seq<Channel>, a: Channel)
    requires Interior((x, y), img.width, img.height)
    ensures var ps := Window(img, x, y);
      rs == Channels(ps, 0) && gs == Channels(ps, 1) && bs == Channels(ps, 2) && a == ps[8].a
  {
    ghost var ps := Window(img, x, y);
    rs, gs, bs, a := [], [], [], 0;
    var dy := -1;
    while dy <= 1
      invariant -1 <= dy <= 2
      invariant |rs| == |gs| == |bs| == 3 * (dy + 1)
      invariant forall t :: 0 <= t < |rs| ==> rs[t] == ps[t].r && gs[t] == ps[t].g && bs[t] == ps[t].b
      invariant |rs| > 0 ==> a == ps[|rs| - 1].a
    {
      var dx := -1;
      while dx <= 1
        invariant -1 <= dx <= 2
        invariant |rs| == |gs| == |bs| == 3 * (dy + 1) + (dx + 1)
        invariant forall t :: 0 <= t < |rs| ==> rs[t] == ps[t].r && gs[t] == ps[t].g && bs[t] == ps[t].b
        invariant |rs| > 0 ==> a == ps[|rs| - 1].a
      {
        var q := At(img, x + dx, y + dy);
        assert q == ps[|rs|];
        rs, gs, bs, a := rs + [q.r], gs + [q.g], bs + [q.b], q.a;
        dx := dx + 1;
      }
      dy := dy + 1;
    }
  }

  /** The body of `median_filter`'s pixel loop: sort the three vectors, take index 4. */
  method MedianPixel(img: Raster, x: nat, y: nat) returns (p: Pixel)
    requires Interior((x, y), img.width, img.height)
    ensures p == MedianAt(img, x, y)
  {
    var rs, gs, bs, a := ChannelVectors(img, x, y);
    var r, g, b := MedianOf(rs), MedianOf(gs), MedianOf(bs);
    p := Rgba(r, g, b, a);
  }

  method MedianFilter(img: Raster) returns (out: Raster)
    ensures out == MedianFiltered(img)
  {
    var w, h := img.width, img.height;
    ghost var target := MedianFiltered(img).pixels;
    var buf := new Pixel[w * h](_ => Transparent);
    ghost var init := buf[..];
    MedianCells(img);
    FillStartInterior(init, target, w, h);
    var y: nat := 1;
    while y < h - 1
      invariant 1 <= y
      invariant FilledBefore(buf[..], target, init, w, h, 1, y)
    {
      var x: nat := 1;
      while x < w - 1
        invariant 1 <= x
        invariant FilledBefore(buf[..], target, init, w, h, x, y)
      {
        var p := MedianPixel(img, x, y);
        FillStep(buf[..], target, init, w, h, x, y);
        MedianAtIndex(img, x, y);
        buf[y * w + x] := p;
        x := x + 1;
      }
      FillNextInteriorRow(buf[..], target, init, w, h, x, y);
      y := y + 1;
    }
    FillDoneInterior(buf[..], target, init, w, h, y);
    out := Image(w, h, buf[..]);
  }

  /** Each colour channel of the window median is that channel of some neighbour. */
  lemma MedianFromNeighbours(ps: seq<Pixel>)
    requires |ps| == 9
    ensures var q := MedianPixelOf(ps);
      && (exists t :: 0 <= t < 9 && q.r == ps[t].r)
      && (exists t :: 0 <= t < 9 && q.g == ps[t].g)
      && (exists t :: 0 <= t < 9 && q.b == ps[t].b)
      && q.a == ps[8].a
  {
    SortAscendingSorted(Channels(ps, 0));
    SortAscendingSorted(Channels(ps, 1));
    SortAscendingSorted(Channels(ps, 2));
    MedianIsFifthSmallest(Channels(ps, 0), SortAscending(Channels(ps, 0)));
    MedianIsFifthSmallest(Channels(ps, 1), SortAscending(Channels(ps, 1)));
    MedianIsFifthSmallest(Channels(ps, 2), SortAscending(Channels(ps, 2)));
  }

  /** What `median_filter` promises: same dimensions, a transparent border, and on
      interior cells each colour channel is one of the nine neighbours' values for
      that channel, alpha being that of (x + 1, y + 1). */
  lemma MedianFilterPixel(img: Raster, x: nat, y: nat)
    requires x < img.width && y < img.height
    ensures MedianFiltered(img).width == img.width && MedianFiltered(img).height == img.height
    ensures !Interior((x, y), img.width, img.height) ==> At(MedianFiltered(img), x, y) == Transparent
    ensures Interior((x, y), img.width, img.height) ==>
      var q, ps := At(MedianFiltered(img), x, y), Window(img, x, y);
      && (exists t :: 0 <= t < 9 && q.r == ps[t].r)
      && (exists t :: 0 <= t < 9 && q.g == ps[t].g)
      && (exists t :: 0 <= t < 9 && q.b == ps[t].b)
      && q.a == At(img, x + 1, y + 1).a
  {
    MedianAtIndex(img, x, y);
    if Interior((x, y), img.width, img.height) {
      MedianFromNeighbours(Window(img, x, y));
    }
  }

  // ---------------------------------------------------------------------
  // Maximum and minimum by luminance

  /** The sort key of `maximum_filter` and `minimum_filter`, the BT.709 weighted sum
      0.2126 R + 0.7152 G + 0.0722 B, scaled by 10000 to stay in the integers.
      Truncated by 10000 it is `to_luma8`'s value (`Pipeline.LumaIsScaledScore`). */
  function Score(p: Pixel): int {
    2126 * p.r + 7152 * p.g + 722 * p.b
  }

  /** The position a stable ascending sort by `Score` moves to the end: the last
      of the pixels with the highest score. */
  function BrightestIndex(ps: seq<Pixel>): (j: nat)
    requires |ps| > 0
    ensures j < |ps|
  {
    if |ps| == 1 then 0
    else
      var j := BrightestIndex(ps[..|ps| - 1]);
      if Score(ps[|ps| - 1]) >= Score(ps[j]) then |ps| - 1 else j
  }

  /** The position a stable ascending sort by `Score` moves to the front: the first
      of the pixels with the lowest score. */
  function DarkestIndex(ps: seq<Pixel>): (j: nat)
    requires |ps| > 0
    ensures j < |ps|
  {
    if |ps| == 1 then 0
    else
      var j := DarkestIndex(ps[..|ps| - 1]);
      if Score(ps[|ps| - 1]) < Score(ps[j]) then |ps| - 1 else j
  }

  /** `BrightestIndex` is maximal, and nothing after it is as bright. */
  lemma {:induction false} BrightestIndexSpec(ps: seq<Pixel>)
    requires |ps| > 0
    ensures var j := BrightestIndex(ps);
      && (forall i :: 0 <= i < |ps| ==> Score(ps[i]) <= Score(ps[j]))
      && (forall i :: j < i < |ps| ==> Score(ps[i]) < Score(ps[j]))
  {
    if |ps| > 1 {
      var n := |ps| - 1;
      var front := ps[..n];
      BrightestIndexSpec(front);
      var j := BrightestIndex(front);
      assert front[j] == ps[j];
      forall i | 0 <= i < n
        ensures Score(front[i]) == Score(ps[i])
      {
        assert front[i] == ps[i];
      }
    }
  }

  /** `DarkestIndex` is minimal, and nothing before it is as dark. */
  lemma {:induction false} DarkestIndexSpec(ps: seq<Pixel>)
    requires |ps| > 0
    ensures var j := DarkestIndex(ps);
      && (forall i :: 0 <= i < |ps| ==> Score(ps[j]) <= Score(ps[i]))
      && (forall i :: 0 <= i < j ==> Score(ps[j]) < Score(ps[i]))
  {
    if |ps| > 1 {
      var n := |ps| - 1;
      var front := ps[..n];
      DarkestIndexSpec(front);
      var j := DarkestIndex(front);
      assert front[j] == ps[j];
      forall i | 0 <= i < n
        ensures Score(front[i]) == Score(ps[i])
      {
        assert front[i] == ps[i];
      }
    }
  }

  /** Only one position is maximal with nothing as bright after it. */
  lemma BrightestIndexUnique(ps: seq<Pixel>, k: nat)
    requires k < |ps|
    requires forall i :: 0 <= i < |ps| ==> Score(ps[i]) <= Score(ps[k])
    requires forall i :: k < i < |ps| ==> Score(ps[i]) < Score(ps[k])
    ensures k == BrightestIndex(ps)
  {
    BrightestIndexSpec(ps);
  }

  /** Only one position is minimal with nothing as dark before it. */
  lemma DarkestIndexUnique(ps: seq<Pixel>, k: nat)
    requires k < |ps|
    requires forall i :: 0 <= i < |ps| ==> Score(ps[k]) <= Score(ps[i])
    requires forall i :: 0 <= i < k ==> Score(ps[k]) < Score(ps[i])
    ensures k == DarkestIndex(ps)
  {
    DarkestIndexSpec(ps);
  }

  /** Output pixel (x, y) of `maximum_filter`: the brightest neighbour, whole. */
  function MaximumAt(img: Raster, x: nat, y: nat): Pixel
    requires x < img.width && y < img.height
  {
    if Interior((x, y), img.width, img.height) then
      var ps := Window(img, x, y); ps[BrightestIndex(ps)]
    else Transparent
  }

  /** Output pixel (x, y) of `minimum_filter`: the darkest neighbour, whole. */
  function MinimumAt(img: Raster, x: nat, y: nat): Pixel
    requires x < img.width && y < img.height
  {
    if Interior((x, y), img.width, img.height) then
      var ps := Window(img, x, y); ps[DarkestIndex(ps)]
    else Transparent
  }

  function MaximumFiltered(img: Raster): Raster
  {
    var w, h := img.width, img.height;
    Image(w, h, seq(w * h, i requires 0 <= i < w * h =>
      var c := Coords(i, w, h); MaximumAt(img, c.0, c.1)))
  }

  function MinimumFiltered(img: Raster): Raster
  {
    var w, h := img.width, img.height;
    Image(w, h, seq(w * h, i requires 0 <= i < w * h =>
      var c := Coords(i, w, h); MinimumAt(img, c.0, c.1)))
  }

  lemma MaximumCells(img: Raster)
    ensures var out := MaximumFiltered(img);
      && out.width == img.width && out.height == img.height
      && forall i :: 0 <= i < img.width * img.height && !Interior(Coords(i, img.width, img.height), img.width, img.height)
           ==> out.pixels[i] == Transparent
  {
  }

  lemma MaximumAtIndex(img: Raster, x: nat, y: nat)
    requires x < img.width && y < img.height
    ensures y * img.width + x < img.width * img.height
    ensures MaximumFiltered(img).pixels[y * img.width + x] == MaximumAt(img, x, y)
  {
    CoordsOf(x, y, img.width, img.height);
  }

  lemma MinimumCells(img: Raster)
    ensures var out := MinimumFiltered(img);
      && out.width == img.width && out.height == img.height
      && forall i :: 0 <= i < img.width * img.height && !Interior(Coords(i, img.width, img.height), img.width, img.height)
           ==> out.pixels[i] == Transparent
  {
  }

  lemma MinimumAtIndex(img: Raster, x: nat, y: nat)
    requires x < img.width && y < img.height
    ensures y * img.width + x < img.width * img.height
    ensures MinimumFiltered(img).pixels[y * img.width + x] == MinimumAt(img, x, y)
  {
    CoordsOf(x, y, img.width, img.height);
  }

  /** The body of the pixel loop: collect the neighbours, sort by luminance, pick. */
  method MaximumPixel(img: Raster, x: nat, y: nat) returns (p: Pixel)
    requires Interior((x, y), img.width, img.height)
    ensures p == MaximumAt(img, x, y)
  {
    var rs := Neighbourhood(img, x, y);
    p := rs[BrightestIndex(rs)];
  }

  method MaximumFilter(img: Raster) returns (out: Raster)
    ensures out == MaximumFiltered(img)
  {
    var w, h := img.width, img.height;
    ghost var target := MaximumFiltered(img).pixels;
    var buf := new Pixel[w * h](_ => Transparent);
    ghost var init := buf[..];
    MaximumCells(img);
    FillStartInterior(init, target, w, h);
    var y: nat := 1;
    while y < h - 1
      invariant 1 <= y
      invariant FilledBefore(buf[..], target, init, w, h, 1, y)
    {
      var x: nat := 1;
      while x < w - 1
        invariant 1 <= x
        invariant FilledBefore(buf[..], target, init, w, h, x, y)
      {
        var p := MaximumPixel(img, x, y);
        FillStep(buf[..], target, init, w, h, x, y);
        MaximumAtIndex(img, x, y);
        buf[y * w + x] := p;
        x := x + 1;
      }
      FillNextInteriorRow(buf[..], target, init, w, h, x, y);
      y := y + 1;
    }
    FillDoneInterior(buf[..], target, init, w, h, y);
    out := Image(w, h, buf[..]);
  }

  /** The body of the pixel loop: collect the neighbours, sort by luminance, pick. */
  method MinimumPixel(img: Raster, x: nat, y: nat) returns (p: Pixel)
    requires Interior((x, y), img.width, img.height)
    ensures p == MinimumAt(img, x, y)
  {
    var rs := Neighbourhood(img, x, y);
    p := rs[DarkestIndex(rs)];
  }

  method MinimumFilter(img: Raster) returns (out: Raster)
    ensures out == MinimumFiltered(img)
  {
    var w, h := img.width, img.height;
    ghost var target := MinimumFiltered(img).pixels;
    var buf := new Pixel[w * h](_ => Transparent);
    ghost var init := buf[..];
    MinimumCells(img);
    FillStartInterior(init, target, w, h);
    var y: nat := 1;
    while y < h - 1
      invariant 1 <= y
      invariant FilledBefore(buf[..], target, init, w, h, 1, y)
    {
      var x: nat := 1;
      while x < w - 1
        invariant 1 <= x
        invariant FilledBefore(buf[..], target, init, w, h, x, y)
      {
        var p := MinimumPixel(img, x, y);
        FillStep(buf[..], target, init, w, h, x, y);
        MinimumAtIndex(img, x, y);
        buf[y * w + x] := p;
        x := x + 1;
      }
      FillNextInteriorRow(buf[..], target, init, w, h, x, y);
      y := y + 1;
    }
    FillDoneInterior(buf[..], target, init, w, h, y);
    out := Image(w, h, buf[..]);
  }

  /** What `maximum_filter` and `minimum_filter` promise on an interior cell: the
      output is one of the nine neighbours, unchanged (alpha included), whose
      luminance no neighbour exceeds, respectively undercuts; so the maximum is
      never darker than the minimum. */
  lemma ExtremaFilterPixel(img: Raster, x: nat, y: nat)
    requires Interior((x, y), img.width, img.height)
    ensures var hi, ps := At(MaximumFiltered(img), x, y), Window(img, x, y);
      && (exists t :: 0 <= t < 9 && hi == ps[t])
      && forall t :: 0 <= t < 9 ==> Score(ps[t]) <= Score(hi)
    ensures var lo, ps := At(MinimumFiltered(img), x, y), Window(img, x, y);
      && (exists t :: 0 <= t < 9 && lo == ps[t])
      && forall t :: 0 <= t < 9 ==> Score(lo) <= Score(ps[t])
    ensures Score(At(MinimumFiltered(img), x, y)) <= Score(At(MaximumFiltered(img), x, y))
  {
    MaximumAtIndex(img, x, y);
    MinimumAtIndex(img, x, y);
    BrightestIndexSpec(Window(img, x, y));
    DarkestIndexSpec(Window(img, x, y));
  }
}
