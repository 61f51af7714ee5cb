/** The picture of a screenshot comparison (src/image/overlay.js). */
module Overlay {
  import opened Prelude
  import opened Integers
  import opened Rounding
  import opened RowFilters
  import opened Png
  import opened Pixels
  import opened Painting
  import opened Grid
  import opened Luminance
  import opened Diff

  const MARK: seq<byte> := [255, 0, 170, 255]
  const OUTLINE: seq<byte> := [0, 255, 200, 255]

  /** The luminance scaled by 0.35, rounded to the nearest byte. */
  function Dimmed(p: seq<byte>): byte
    requires |p| == 4
  {
    Nearest(Luma(p) * 0.35)
  }

  /** In whole numbers: 35 hundredths of the weighted channels, halves up. */
  lemma DimmedIs(p: seq<byte>, red: int, green: int, blue: int, grey: int)
    requires |p| == 4 && red == p[0] && green == p[1] && blue == p[2]
    ensures Dimmed(p) == grey <==>
              (2 * grey - 1) * 500000 <= 35 * (2126 * red + 7152 * green + 722 * blue) < (2 * grey + 1) * 500000
  {
    var luma := Luma(p);
    assert luma * 10000.0 == (2126 * red + 7152 * green + 722 * blue) as real;
  }

  function OverlayPixel(p: seq<byte>, q: seq<byte>, tolerance: real): (rgba: seq<byte>)
    requires |p| == 4 && |q| == 4
    ensures |rgba| == 4 && (rgba == [255, 0, 170, 255] <==> PixelDiffers(p, q, tolerance))
  {
    if PixelDiffers(p, q, tolerance) then MARK else [Dimmed(p), Dimmed(p), Dimmed(p), 255]
  }

  /** Pixel (x, y) of the overlay of the parts that both images have. */
  ghost predicate OverlayAt(now: seq<byte>, a: Image, b: Image, tolerance: real, width: nat, height: nat, y: nat, x: nat)
    requires Whole(a) && Whole(b) && |now| == Offset(width * 4, height) && y < height && x < width
    requires width <= a.width && width <= b.width && height <= a.height && height <= b.height
  {
    PixelOf(now, width, height, y, x)
      == OverlayPixel(PixelOf(a.data, a.width, a.height, y, x), PixelOf(b.data, b.width, b.height, y, x), tolerance)
  }

  ghost predicate DrawnOver(o: Image, a: Image, b: Image, tolerance: real)
    requires Whole(a) && Whole(b)
  {
    && o.width == Min(a.width, b.width) && o.height == Min(a.height, b.height) && Whole(o)
    && forall y: nat, x: nat :: y < o.height && x < o.width ==> OverlayAt(o.data, a, b, tolerance, o.width, o.height, y, x)
  }

  // ---- the outline of the divergence box ----------------------------------------------------

  /** A box in pixels, not necessarily whole ones. */
  datatype Frame = Frame(x: real, y: real, w: real, h: real)

  /** A coordinate, rounded and clipped to the image. */
  function Clipped(x: real, size: nat): (c: nat)
    ensures size > 0 ==> c < size
  {
    Max(0, Min(size - 1, Nearest(x)))
  }

  /** The pixel nearest to the coordinate, halves up, among those of the image. */
  lemma ClippedIs(x: real, size: nat, c: nat)
    requires c < size
    ensures c == Clipped(x, size) <==> (c == 0 || x >= c as real - 0.5) && (c == size - 1 || x < c as real + 0.5)
  {
    NearestIs(x);
  }

  /** Pixel (x, y) lies on the four lines of the rounded and clipped box. */
  predicate OnFrame(f: Frame, width: nat, height: nat, y: nat, x: nat) {
    var x0, y0 := Clipped(f.x, width), Clipped(f.y, height);
    var x1, y1 := Clipped(f.x + f.w - 1.0, width), Clipped(f.y + f.h - 1.0, height);
    || (x0 <= x <= x1 && (y == y0 || y == y1))
    || (y0 <= y <= y1 && (x == x0 || x == x1))
  }

  predicate Outlined(box: Option<Frame>, width: nat, height: nat, y: nat, x: nat) {
    box.Some? && OnFrame(box.value, width, height, y, x)
  }

  ghost predicate StrokedAt(now: seq<byte>, was: seq<byte>, width: nat, height: nat, done: set<Point>, y: nat, x: nat)
    requires |now| == |was| == Offset(width * 4, height) && y < height && x < width
  {
    PixelOf(now, width, height, y, x) == if (y, x) in done then OUTLINE else PixelOf(was, width, height, y, x)
  }

  /** The pixels in `done` have the outline's colour and every other pixel is as it was. */
  ghost predicate Stroked(now: seq<byte>, was: seq<byte>, width: nat, height: nat, done: set<Point>) {
    && |now| == |was| == Offset(width * 4, height)
    && forall y: nat, x: nat :: y < height && x < width ==> StrokedAt(now, was, width, height, done, y, x)
  }

  method Stroke(data: array<byte>, width: nat, height: nat, y: nat, x: nat, ghost was: seq<byte>, ghost done: set<Point>)
    requires y < height && x < width && Stroked(data[..], was, width, height, done)
    modifies data
    ensures Stroked(data[..], was, width, height, done + {(y, x)})
  {
    ghost var before := data[..];
    PutPixel(data, width, height, OUTLINE, y, x);
    forall v: nat, u: nat | v < height && u < width
      ensures StrokedAt(data[..], was, width, height, done + {(y, x)}, v, u)
    {
      assert StrokedAt(before, was, width, height, done, v, u);
      assert WroteOnly(data[..], before, width, height, OUTLINE, y, x, v, u);
    }
  }

  /** The four lines, drawn two at a time. */
  method StrokeRect(data: array<byte>, width: nat, height: nat, f: Frame)
    requires width > 0 && height > 0 && data.Length == Offset(width * 4, height)
    modifies data
    ensures forall y: nat, x: nat :: y < height && x < width ==>
      PixelOf(data[..], width, height, y, x) ==
        if OnFrame(f, width, height, y, x) then [0, 255, 200, 255] else PixelOf(old(data[..]), width, height, y, x)
  {
    ghost var was, done: set<Point> := data[..], {};
    var x0, y0 := Clipped(f.x, width), Clipped(f.y, height);
    var x1, y1 := Clipped(f.x + f.w - 1.0, width), Clipped(f.y + f.h - 1.0, height);
    hide Clipped, PixelOf, Stroked;
    NothingStroked(was, width, height);
    var x := x0;
    while x <= x1
      invariant x0 <= x && (x <= x1 + 1 || x == x0) && Stroked(data[..], was, width, height, done)
      invariant forall v: nat, u: nat :: (v, u) in done <==> x0 <= u < x && (v == y0 || v == y1)
    {
      Stroke(data, width, height, y0, x, was, done);
      Stroke(data, width, height, y1, x, was, done + {(y0, x)});
      done := done + {(y0, x)} + {(y1, x)};
      x := x + 1;
    }
    var y := y0;
    while y <= y1
      invariant y0 <= y && (y <= y1 + 1 || y == y0) && Stroked(data[..], was, width, height, done)
      invariant forall v: nat, u: nat :: (v, u) in done <==>
        || (x0 <= u <= x1 && (v == y0 || v == y1)) || (y0 <= v < y && (u == x0 || u == x1))
    {
      Stroke(data, width, height, y, x0, was, done);
      Stroke(data, width, height, y, x1, was, done + {(y, x0)});
      done := done + {(y, x0)} + {(y, x1)};
      y := y + 1;
    }
    forall v: nat, u: nat | v < height && u < width
      ensures PixelOf(data[..], width, height, v, u) ==
        if OnFrame(f, width, height, v, u) then OUTLINE else PixelOf(was, width, height, v, u)
    {
      StrokedPixel(data[..], was, width, height, done, v, u);
    }
  }

  lemma NothingStroked(was: seq<byte>, width: nat, height: nat)
    requires |was| == Offset(width * 4, height)
    ensures Stroked(was, was, width, height, {})
  {
  }

  lemma StrokedPixel(now: seq<byte>, was: seq<byte>, width: nat, height: nat, done: set<Point>, y: nat, x: nat)
    requires Stroked(now, was, width, height, done) && y < height && x < width
    ensures |now| == |was| == Offset(width * 4, height)
    ensures PixelOf(now, width, height, y, x) == if (y, x) in done then OUTLINE else PixelOf(was, width, height, y, x)
  {
    assert StrokedAt(now, was, width, height, done, y, x);
  }

  // ---- the overlay --------------------------------------------------------------------------

  ghost predicate FinalAt(o: Image, a: Image, b: Image, tolerance: real, box: Option<Frame>, y: nat, x: nat)
    requires Whole(o) && Whole(a) && Whole(b) && y < o.height && x < o.width
    requires o.width <= a.width && o.width <= b.width && o.height <= a.height && o.height <= b.height
  {
    if Outlined(box, o.width, o.height, y, x) then PixelOf(o.data, o.width, o.height, y, x) == OUTLINE
    else OverlayAt(o.data, a, b, tolerance, o.width, o.height, y, x)
  }

  /** The box's outline over the marked and dimmed pixels. */
  ghost predicate IsOverlay(o: Image, a: Image, b: Image, tolerance: real, box: Option<Frame>)
    requires Whole(a) && Whole(b)
  {
    && o.width == Min(a.width, b.width) && o.height == Min(a.height, b.height) && Whole(o)
    && forall y: nat, x: nat :: y < o.height && x < o.width ==> FinalAt(o, a, b, tolerance, box, y, x)
  }

  ghost function MarkedPixels(o: Image): set<Point>
    requires Whole(o)
  {
    set y: nat, x: nat | y < o.height && x < o.width && PixelOf(o.data, o.width, o.height, y, x) == MARK :: (y, x)
  }

  /** The pixel loops, before any box is outlined. */
  method DrawPixels(a: Image, b: Image, tolerance: real) returns (data: array<byte>)
    requires Whole(a) && Whole(b)
    ensures fresh(data) && DrawnOver(Image(Min(a.width, b.width), Min(a.height, b.height), data[..]), a, b, tolerance)
  {
    hide OverlayPixel;
    var width, height := Min(a.width, b.width), Min(a.height, b.height);
    data := new byte[Offset(width * 4, height)];
    for y := 0 to height
      invariant forall v: nat, u: nat :: v < y && u < width ==> OverlayAt(data[..], a, b, tolerance, width, height, v, u)
    {
      for x := 0 to width
        invariant forall v: nat, u: nat :: v < y && u < width ==> OverlayAt(data[..], a, b, tolerance, width, height, v, u)
        invariant forall u: nat :: u < x ==> OverlayAt(data[..], a, b, tolerance, width, height, y, u)
      {
        ghost var before := data[..];
        DrawPixel(data, a, b, tolerance, width, height, y, x);
        forall v: nat, u: nat | v <= y && u < width && (v < y || u < x)
          ensures OverlayAt(data[..], a, b, tolerance, width, height, v, u)
        {
          assert OverlayAt(before, a, b, tolerance, width, height, v, u);
          Unchanged(data[..], before, width, height, y, x, v, u);
        }
      }
    }
  }

  method DiffOverlay(a: Image, b: Image, tolerance: real, box: Option<Frame>) returns (o: Image)
    requires Whole(a) && Whole(b)
    ensures IsOverlay(o, a, b, tolerance, box)
  {
    hide OverlayPixel, PixelOf, OnFrame;
    var width, height := Min(a.width, b.width), Min(a.height, b.height);
    var data := DrawPixels(a, b, tolerance);
    ghost var drawn := Image(width, height, data[..]);
    if box.Some? && width > 0 && height > 0 {
      StrokeRect(data, width, height, box.value);
    }
    o := Image(width, height, data[..]);
    forall y: nat, x: nat | y < height && x < width ensures FinalAt(o, a, b, tolerance, box, y, x) {
      assert OverlayAt(drawn.data, a, b, tolerance, width, height, y, x);
    }
  }

  lemma Unchanged(now: seq<byte>, was: seq<byte>, width: nat, height: nat, y: nat, x: nat, v: nat, u: nat)
    requires |now| == |was| == Offset(width * 4, height) && y < height && x < width && v < height && u < width
    requires forall i :: 0 <= i < |now| && !(0 <= i - PixelOffset(width, y, x) < 4) ==> now[i] == was[i]
    requires v != y || u != x
    ensures PixelOf(now, width, height, v, u) == PixelOf(was, width, height, v, u)
  {
    PixelsApart(width, y, x, v, u);
    PixelFits(width, height, v, u);
  }

  method DrawPixel(data: array<byte>, a: Image, b: Image, tolerance: real, width: nat, height: nat, y: nat, x: nat)
    requires Whole(a) && Whole(b) && data.Length == Offset(width * 4, height) && y < height && x < width
    requires width <= a.width && width <= b.width && height <= a.height && height <= b.height
    modifies data
    ensures OverlayAt(data[..], a, b, tolerance, width, height, y, x)
    ensures forall i :: 0 <= i < data.Length && !(0 <= i - PixelOffset(width, y, x) < 4) ==> data[..][i] == old(data[..])[i]
  {
    hide Offset;
    PixelFits(width, height, y, x);
    PixelFits(a.width, a.height, y, x);
    var o, i := PixelOffset(width, y, x), PixelOffset(a.width, y, x);
    var differs := Compare(a, b, tolerance, y, x);
    if differs {
      data[o], data[o + 1], data[o + 2] := 255, 0, 170;
    } else {
      var g := Dimmed(a.data[i..i + 4]);
      data[o], data[o + 1], data[o + 2] := g, g, g;
    }
    data[o + 3] := 255;
  }

  /** The overlay marks exactly the pixels the diff counts, except under the outline. */
  lemma OverlayAgrees(a: Image, b: Image, tolerance: real, box: Option<Frame>, o: Image)
    requires Whole(a) && Whole(b) && a.width == b.width && a.height == b.height && IsOverlay(o, a, b, tolerance, box)
    ensures MarkedPixels(o) ==
      set p | p in DifferingPixels(a, b, tolerance) && !Outlined(box, a.width, a.height, p.0, p.1)
  {
    hide OnFrame;
    assert OUTLINE[0] != MARK[0];
    forall y: nat, x: nat | y < a.height && x < a.width
      ensures PixelOf(o.data, o.width, o.height, y, x) == MARK <==>
        Differs(a, b, tolerance, y, x) && !Outlined(box, a.width, a.height, y, x)
    {
      assert FinalAt(o, a, b, tolerance, box, y, x);
    }
  }
}
