/** Screenshot comparison: the pixel diff of src/image/diff.js. */
module Diff {
  import opened Prelude
  import opened Integers
  import opened Bitwise
  import opened RowFilters
  import opened Png
  import opened Pixels
  import opened Grid
  import opened Luminance

  type Point = (nat, nat)

  // ---- which pixels differ ------------------------------------------------------------------

  predicate ChannelDiffers(p: byte, q: byte, tolerance: real) {
    Abs(p - q) as real > tolerance
  }

  predicate PixelDiffers(p: seq<byte>, q: seq<byte>, tolerance: real)
    requires |p| == 4 && |q| == 4
  {
    || ChannelDiffers(p[0], q[0], tolerance) || ChannelDiffers(p[1], q[1], tolerance)
    || ChannelDiffers(p[2], q[2], tolerance) || ChannelDiffers(p[3], q[3], tolerance)
  }

  /** Pixel (x, y) is in both images and differs between them. */
  predicate Differs(a: Image, b: Image, tolerance: real, y: nat, x: nat)
    requires Whole(a) && Whole(b)
  {
    && y < a.height && y < b.height && x < a.width && x < b.width
    && PixelDiffers(PixelOf(a.data, a.width, a.height, y, x), PixelOf(b.data, b.width, b.height, y, x), tolerance)
  }

  /** One of the four bytes of a pixel, counted from the start of the buffer. */
  function Channel(a: Image, y: nat, x: nat, k: nat): real {
    var at := (y * a.width + x) * 4 + k;
    if 0 <= at < |a.data| then a.data[at] as real else 0.0
  }

  /** Some channel is further apart than the tolerance, either way. */
  lemma DiffersIff(a: Image, b: Image, tolerance: real, y: nat, x: nat)
    requires Whole(a) && Whole(b) && y < a.height && y < b.height && x < a.width && x < b.width
    ensures Differs(a, b, tolerance, y, x) <==>
              exists k: nat :: k < 4 && Apart(Channel(a, y, x, k), Channel(b, y, x, k), tolerance)
  {
    hide Apart, Channel, PixelOf;
    forall k: nat | k < 4
      ensures Channel(a, y, x, k) == PixelOf(a.data, a.width, a.height, y, x)[k] as real
      ensures Channel(b, y, x, k) == PixelOf(b.data, b.width, b.height, y, x)[k] as real
    {
      ChannelAt(a, y, x, k);
      ChannelAt(b, y, x, k);
    }
    AnyChannel(PixelOf(a.data, a.width, a.height, y, x), PixelOf(b.data, b.width, b.height, y, x), tolerance);
  }

  predicate Apart(p: real, q: real, tolerance: real) {
    p - q > tolerance || q - p > tolerance
  }

  lemma AnyChannel(p: seq<byte>, q: seq<byte>, tolerance: real)
    requires |p| == 4 && |q| == 4
    ensures PixelDiffers(p, q, tolerance) <==> exists k: nat :: k < 4 && Apart(p[k] as real, q[k] as real, tolerance)
  {
    assert forall k: nat :: k < 4 ==> (ChannelDiffers(p[k], q[k], tolerance) <==> Apart(p[k] as real, q[k] as real, tolerance));
  }

  lemma ChannelAt(a: Image, y: nat, x: nat, k: nat)
    requires Whole(a) && y < a.height && x < a.width && k < 4
    ensures Channel(a, y, x, k) == PixelOf(a.data, a.width, a.height, y, x)[k] as real
  {
    hide Offset;
    PixelFits(a.width, a.height, y, x);
    OffsetIsProduct(a.width * 4, y);
    assert (y * a.width + x) * 4 == PixelOffset(a.width, y, x);
  }

  /** The differing pixels that come before (x, y) in row order. */
  ghost function DiffersBefore(a: Image, b: Image, tolerance: real, y: nat, x: nat): set<Point>
    requires Whole(a) && Whole(b)
  {
    set v: nat, u: nat | v < a.height && u < a.width && Differs(a, b, tolerance, v, u) && (v < y || (v == y && u < x)) :: (v, u)
  }

  ghost function DifferingPixels(a: Image, b: Image, tolerance: real): set<Point>
    requires Whole(a) && Whole(b)
  {
    set v: nat, u: nat | v < a.height && u < a.width && Differs(a, b, tolerance, v, u) :: (v, u)
  }

  lemma NextPixel(a: Image, b: Image, tolerance: real, y: nat, x: nat)
    requires Whole(a) && Whole(b)
    ensures (y, x) !in DiffersBefore(a, b, tolerance, y, x)
    ensures DiffersBefore(a, b, tolerance, y, x + 1)
              == DiffersBefore(a, b, tolerance, y, x) + (if Differs(a, b, tolerance, y, x) then {(y, x)} else {})
  {
  }

  lemma RowBoundaries(a: Image, b: Image, tolerance: real, y: nat)
    requires Whole(a) && Whole(b)
    ensures DiffersBefore(a, b, tolerance, 0, 0) == {}
    ensures DiffersBefore(a, b, tolerance, y, a.width) == DiffersBefore(a, b, tolerance, y + 1, 0)
    ensures DiffersBefore(a, b, tolerance, a.height, 0) == DifferingPixels(a, b, tolerance)
  {
  }

  // ---- the grid of cells --------------------------------------------------------------------

  function CellOf(a: Image, p: Point): nat {
    CellAt(a, p.0, p.1)
  }

  ghost function InCell(a: Image, s: set<Point>, cell: nat): set<Point> {
    set p | p in s && CellOf(a, p) == cell
  }

  lemma {:induction false} SumUpdate(s: seq<nat>, i: nat)
    requires i < |s|
    ensures Total(s[i := s[i] + 1]) == Total(s) + 1
  {
    var n := |s| - 1;
    if i < n {
      SumUpdate(s[..n], i);
      assert s[i := s[i] + 1][..n] == s[..n][i := s[..n][i] + 1];
    } else {
      assert s[i := s[i] + 1][..n] == s[..n];
    }
  }

  lemma {:induction false} SumZeros(s: seq<nat>)
    ensures Total(s) >= 0 && (Total(s) == 0 <==> forall i :: 0 <= i < |s| ==> s[i] == 0)
  {
    if s != [] {
      SumZeros(s[..|s| - 1]);
      assert forall i :: 0 <= i < |s| - 1 ==> s[..|s| - 1][i] == s[i];
    }
  }

  /** The counters are right for the differing pixels in `s`. */
  ghost predicate Counts(cells: seq<nat>, differing: nat, a: Image, s: set<Point>) {
    && |cells| == GRID * GRID && differing == |s| && Total(cells) == differing
    && forall k: nat :: k < |cells| ==> cells[k] == |InCell(a, s, k)|
  }

  lemma OneMoreIn(a: Image, s: set<Point>, p: Point, k: nat)
    requires p !in s
    ensures |InCell(a, s + {p}, k)| == |InCell(a, s, k)| + (if k == CellOf(a, p) then 1 else 0)
  {
    hide CellOf;
    assert InCell(a, s + {p}, k) == InCell(a, s, k) + (if k == CellOf(a, p) then {p} else {});
  }

  lemma CountOne(cells: seq<nat>, differing: nat, a: Image, s: set<Point>, p: Point)
    requires Counts(cells, differing, a, s) && p !in s && CellOf(a, p) < |cells|
    ensures var k := CellOf(a, p); Counts(cells[k := cells[k] + 1], differing + 1, a, s + {p})
  {
    hide Total, CellOf, InCell;
    SumUpdate(cells, CellOf(a, p));
    forall k: nat | k < |cells| {
      OneMoreIn(a, s, p, k);
    }
  }

  lemma NoneCounted(cells: seq<nat>, a: Image)
    requires |cells| == GRID * GRID && forall k :: 0 <= k < |cells| ==> cells[k] == 0
    ensures Counts(cells, 0, a, {})
  {
    SumZeros(cells);
    assert forall k: nat :: k < |cells| ==> InCell(a, {}, k) == {};
  }

  /** The pixel loop of the diff. */
  method CountDifferences(a: Image, b: Image, tolerance: real) returns (cells: array<nat>, differing: nat)
    requires Whole(a) && Whole(b) && a.width == b.width && a.height == b.height
    ensures Counts(cells[..], differing, a, DifferingPixels(a, b, tolerance))
  {
    hide Differs, DiffersBefore, DifferingPixels, Total, InCell;
    var cellW, cellH := CellSize(a.width), CellSize(a.height);
    cells := new nat[GRID * GRID](_ => 0);
    differing := 0;
    RowBoundaries(a, b, tolerance, 0);
    NoneCounted(cells[..], a);
    for y := 0 to a.height
      invariant Counts(cells[..], differing, a, DiffersBefore(a, b, tolerance, y, 0))
    {
      for x := 0 to a.width
        invariant Counts(cells[..], differing, a, DiffersBefore(a, b, tolerance, y, x))
      {
        NextPixel(a, b, tolerance, y, x);
        var differs := Compare(a, b, tolerance, y, x);
        if differs {
          var k := Bucket(y, cellH) * GRID + Bucket(x, cellW);
          CountOne(cells[..], differing, a, DiffersBefore(a, b, tolerance, y, x), (y, x));
          ghost var before := cells[..];
          differing := differing + 1;
          cells[k] := cells[k] + 1;
          assert cells[..] == before[k := before[k] + 1];
        }
      }
      RowBoundaries(a, b, tolerance, y);
    }
    RowBoundaries(a, b, tolerance, 0);
  }

  /** The comparison of one pixel, read at its offset in each buffer. */
  method Compare(a: Image, b: Image, tolerance: real, y: nat, x: nat) returns (differs: bool)
    requires Whole(a) && Whole(b) && y < a.height && y < b.height && x < a.width && x < b.width
    ensures differs == Differs(a, b, tolerance, y, x)
  {
    hide ChannelDiffers, PixelOf, PixelOffset, Offset;
    PixelBytes(a.data, a.width, a.height, y, x);
    PixelBytes(b.data, b.width, b.height, y, x);
    var i, j := PixelOffset(a.width, y, x), PixelOffset(b.width, y, x);
    differs :=
      || ChannelDiffers(a.data[i], b.data[j], tolerance) || ChannelDiffers(a.data[i + 1], b.data[j + 1], tolerance)
      || ChannelDiffers(a.data[i + 2], b.data[j + 2], tolerance) || ChannelDiffers(a.data[i + 3], b.data[j + 3], tolerance);
  }

  // ---- the divergence box -------------------------------------------------------------------

  datatype Box = Box(x: int, y: int, w: int, h: int)

  /** Cell column `cx` of row `cy` holds at least a quarter of the peak, and something. */
  predicate Hot(cells: seq<nat>, peak: nat, cy: nat, cx: nat)
    requires |cells| == GRID * GRID && cy < GRID && cx < GRID
  {
    cells[cy * GRID + cx] >= 1 && 4 * cells[cy * GRID + cx] >= peak
  }

  ghost predicate IsPeak(cells: seq<nat>, peak: nat) {
    && (forall k :: 0 <= k < |cells| ==> cells[k] <= peak)
    && (peak > 0 ==> exists k :: 0 <= k < |cells| && cells[k] == peak)
  }

  /** The four extremes of the hot cells, each reached by one of them. */
  datatype Extent = Extent(minX: nat, minY: nat, maxX: nat, maxY: nat)

  ghost predicate TightExtent(cells: seq<nat>, peak: nat, e: Extent)
    requires |cells| == GRID * GRID
  {
    && e.minX < GRID && e.maxX < GRID && e.minY < GRID && e.maxY < GRID
    && (forall cy: nat, cx: nat :: cy < GRID && cx < GRID && Hot(cells, peak, cy, cx) ==>
          e.minX <= cx <= e.maxX && e.minY <= cy <= e.maxY)
    && (exists cy: nat :: cy < GRID && Hot(cells, peak, cy, e.minX))
    && (exists cy: nat :: cy < GRID && Hot(cells, peak, cy, e.maxX))
    && (exists cx: nat :: cx < GRID && Hot(cells, peak, e.minY, cx))
    && (exists cx: nat :: cx < GRID && Hot(cells, peak, e.maxY, cx))
  }

  function BoxOf(e: Extent, cellW: nat, cellH: nat, width: nat, height: nat): Box {
    Box(e.minX * cellW, e.minY * cellH, Reach(e.minX, e.maxX, cellW, width), Reach(e.minY, e.maxY, cellH, height))
  }

  /** From cell `lo` to the end of cell `hi`, clipped to `n`. */
  function Reach(lo: nat, hi: nat, size: nat, n: nat): int {
    var length := (hi - lo + 1) * size;
    if n - lo * size < length then n - lo * size else length
  }

  method Peak(cells: seq<nat>) returns (peak: nat)
    ensures IsPeak(cells, peak)
  {
    peak := 0;
    for k := 0 to |cells|
      invariant forall i :: 0 <= i < k ==> cells[i] <= peak
      invariant peak > 0 ==> exists i :: 0 <= i < k && cells[i] == peak
    {
      if cells[k] > peak {
        peak := cells[k];
      }
    }
  }

  /** The cells before (cx, cy) in row order have been looked at. */
  predicate Seen(cy: nat, cx: nat, v: nat, u: nat) {
    v < cy || (v == cy && u < cx)
  }

  /** The running extremes after the cells before (cx, cy); `w` names a hot cell that reaches each. */
  ghost predicate SoFar(cells: seq<nat>, peak: nat, minX: int, minY: int, maxX: int, maxY: int, w: Extent, cy: nat, cx: nat)
    requires |cells| == GRID * GRID
  {
    && (forall v: nat, u: nat :: v < GRID && u < GRID && Seen(cy, cx, v, u) && Hot(cells, peak, v, u) ==>
          minX <= u <= maxX && minY <= v <= maxY)
    && (maxX < 0 || (
        && 0 <= minX < GRID && 0 <= minY < GRID && maxX < GRID && 0 <= maxY < GRID
        && w.minX < GRID && Hot(cells, peak, w.minX, minX) && w.maxX < GRID && Hot(cells, peak, w.maxX, maxX)
        && w.minY < GRID && Hot(cells, peak, minY, w.minY) && w.maxY < GRID && Hot(cells, peak, maxY, w.maxY)))
    && (maxX < 0 ==> minX == GRID && minY == GRID && maxX == -1 && maxY == -1)
  }

  lemma NothingSeen(cells: seq<nat>, peak: nat, w: Extent)
    requires |cells| == GRID * GRID
    ensures SoFar(cells, peak, GRID, GRID, -1, -1, w, 0, 0)
  {
  }

  lemma SeeCell(cells: seq<nat>, peak: nat, minX: int, minY: int, maxX: int, maxY: int, w: Extent, cy: nat, cx: nat)
    returns (w': Extent)
    requires |cells| == GRID * GRID && cy < GRID && cx < GRID && Hot(cells, peak, cy, cx)
    requires SoFar(cells, peak, minX, minY, maxX, maxY, w, cy, cx)
    ensures SoFar(cells, peak, if cx < minX then cx else minX, if cy < minY then cy else minY,
                  if cx > maxX then cx else maxX, if cy > maxY then cy else maxY, w', cy, cx + 1)
  {
    hide Hot;
    w' := Extent(if cx < minX then cy else w.minX, if cy < minY then cx else w.minY,
                 if cx > maxX then cy else w.maxX, if cy > maxY then cx else w.maxY);
  }

  lemma SkipCell(cells: seq<nat>, peak: nat, minX: int, minY: int, maxX: int, maxY: int, w: Extent, cy: nat, cx: nat)
    requires |cells| == GRID * GRID && cy < GRID && cx < GRID && !Hot(cells, peak, cy, cx)
    requires SoFar(cells, peak, minX, minY, maxX, maxY, w, cy, cx)
    ensures SoFar(cells, peak, minX, minY, maxX, maxY, w, cy, cx + 1)
  {
  }

  lemma NextRow(cells: seq<nat>, peak: nat, minX: int, minY: int, maxX: int, maxY: int, w: Extent, cy: nat)
    requires |cells| == GRID * GRID && cy < GRID
    requires SoFar(cells, peak, minX, minY, maxX, maxY, w, cy, GRID)
    ensures SoFar(cells, peak, minX, minY, maxX, maxY, w, cy + 1, 0)
  {
  }

  lemma AllSeen(cells: seq<nat>, peak: nat, minX: int, minY: int, maxX: int, maxY: int, w: Extent)
    requires |cells| == GRID * GRID && IsPeak(cells, peak)
    requires SoFar(cells, peak, minX, minY, maxX, maxY, w, GRID, 0)
    ensures maxX < 0 <==> forall k :: 0 <= k < |cells| ==> cells[k] == 0
    ensures maxX >= 0 ==> 0 <= minX && 0 <= minY && 0 <= maxY && TightExtent(cells, peak, Extent(minX, minY, maxX, maxY))
  {
    hide Hot;
    PeakIsHot(cells, peak);
  }

  /** The bounding box of the hot cells; none exactly when every counter is 0. */
  method DivergenceBox(cells: seq<nat>, cellW: nat, cellH: nat, width: nat, height: nat)
    returns (box: Option<Box>, ghost e: Extent, ghost top: nat)
    requires |cells| == GRID * GRID
    ensures box.None? <==> forall k :: 0 <= k < |cells| ==> cells[k] == 0
    ensures box.Some? ==> IsPeak(cells, top) && TightExtent(cells, top, e) && box.value == BoxOf(e, cellW, cellH, width, height)
  {
    hide Hot, TightExtent, BoxOf, SoFar;
    var peak := Peak(cells);
    var minX: int, minY: int, maxX: int, maxY: int := GRID, GRID, -1, -1;
    ghost var w := Extent(0, 0, 0, 0);
    NothingSeen(cells, peak, w);
    for cy := 0 to GRID
      invariant SoFar(cells, peak, minX, minY, maxX, maxY, w, cy, 0)
    {
      for cx := 0 to GRID
        invariant SoFar(cells, peak, minX, minY, maxX, maxY, w, cy, cx)
      {
        var hot := AtThreshold(cells, peak, cy, cx);
        if hot {
          w := SeeCell(cells, peak, minX, minY, maxX, maxY, w, cy, cx);
          if cx < minX { minX := cx; }
          if cy < minY { minY := cy; }
          if cx > maxX { maxX := cx; }
          if cy > maxY { maxY := cy; }
        } else {
          SkipCell(cells, peak, minX, minY, maxX, maxY, w, cy, cx);
        }
      }
      NextRow(cells, peak, minX, minY, maxX, maxY, w, cy);
    }
    AllSeen(cells, peak, minX, minY, maxX, maxY, w);
    top, e := peak, w;
    if maxX < 0 {
      return None, e, top;
    }
    e := Extent(minX, minY, maxX, maxY);
    box := Some(BoxOf(Extent(minX, minY, maxX, maxY), cellW, cellH, width, height));
  }

  /** The threshold test, in the source's terms: at least max(1, peak / 4). */
  method AtThreshold(cells: seq<nat>, peak: nat, cy: nat, cx: nat) returns (hot: bool)
    requires |cells| == GRID * GRID && cy < GRID && cx < GRID
    ensures hot == Hot(cells, peak, cy, cx)
  {
    var threshold := if 1.0 < peak as real * 0.25 then peak as real * 0.25 else 1.0;
    hot := !(cells[cy * GRID + cx] as real < threshold);
  }

  lemma PeakIsHot(cells: seq<nat>, peak: nat)
    requires |cells| == GRID * GRID && IsPeak(cells, peak)
    ensures (exists cy: nat, cx: nat :: cy < GRID && cx < GRID && Hot(cells, peak, cy, cx))
            <==> !forall k :: 0 <= k < |cells| ==> cells[k] == 0
  {
    if !forall k :: 0 <= k < |cells| ==> cells[k] == 0 {
      var k :| 0 <= k < |cells| && cells[k] == peak;
      assert k == (k / GRID) * GRID + k % GRID;
      assert Hot(cells, peak, k / GRID, k % GRID);
    }
  }

  predicate InBox(b: Box, y: nat, x: nat) {
    b.x <= x < b.x + b.w && b.y <= y < b.y + b.h
  }

  /** The cell of pixel (x, y) is at or above a quarter of the peak. */
  predicate HotAt(a: Image, cells: seq<nat>, peak: nat, y: nat, x: nat)
    requires |cells| == GRID * GRID
  {
    var count := cells[Bucket(y, CellSize(a.height)) * GRID + Bucket(x, CellSize(a.width))];
    count > 0 && count as real >= peak as real / 4.0
  }

  lemma HotAtIff(a: Image, cells: seq<nat>, peak: nat, y: nat, x: nat)
    requires |cells| == GRID * GRID
    ensures HotAt(a, cells, peak, y, x) <==> Hot(cells, peak, Bucket(y, CellSize(a.height)), Bucket(x, CellSize(a.width)))
  {
    hide Bucket, CellSize;
  }

  /** Not empty, inside the image, over every pixel of every cell at or above a quarter of the peak, and
      with a pixel of such a cell on each of its four sides. */
  ghost predicate Encloses(b: Box, a: Image, cells: seq<nat>, peak: nat)
    requires |cells| == GRID * GRID
  {
    && b.w > 0 && b.h > 0 && 0 <= b.x && b.x + b.w <= a.width && 0 <= b.y && b.y + b.h <= a.height
    && (forall y: nat, x: nat :: y < a.height && x < a.width ==> (HotAt(a, cells, peak, y, x) ==> InBox(b, y, x)))
    && HotColumn(a, cells, peak, b.x) && HotColumn(a, cells, peak, b.x + b.w - 1)
    && HotRow(a, cells, peak, b.y) && HotRow(a, cells, peak, b.y + b.h - 1)
  }

  ghost predicate HotColumn(a: Image, cells: seq<nat>, peak: nat, x: nat)
    requires |cells| == GRID * GRID
  {
    exists y: nat :: y < a.height && HotAt(a, cells, peak, y, x)
  }

  ghost predicate HotRow(a: Image, cells: seq<nat>, peak: nat, y: nat)
    requires |cells| == GRID * GRID
  {
    exists x: nat :: x < a.width && HotAt(a, cells, peak, y, x)
  }

  lemma BoxEncloses(a: Image, cells: seq<nat>, s: set<Point>, peak: nat, e: Extent)
    requires |cells| == GRID * GRID && Counts(cells, |s|, a, s) && TightExtent(cells, peak, e)
    requires forall p :: p in s ==> p.0 < a.height && p.1 < a.width
    ensures Encloses(BoxOf(e, CellSize(a.width), CellSize(a.height), a.width, a.height), a, cells, peak)
  {
    hide Hot, Counts, Bucket, CellSize, Reach, HotColumn, HotRow;
    BoxCovers(a, cells, s, peak, e);
    LeftSide(a, cells, s, peak, e);
    RightSide(a, cells, s, peak, e);
    TopSide(a, cells, s, peak, e);
    BottomSide(a, cells, s, peak, e);
  }

  lemma BoxCovers(a: Image, cells: seq<nat>, s: set<Point>, peak: nat, e: Extent)
    requires |cells| == GRID * GRID && Counts(cells, |s|, a, s) && TightExtent(cells, peak, e)
    requires forall p :: p in s ==> p.0 < a.height && p.1 < a.width
    ensures var b := BoxOf(e, CellSize(a.width), CellSize(a.height), a.width, a.height);
      && b.w > 0 && b.h > 0 && 0 <= b.x && b.x + b.w <= a.width && 0 <= b.y && b.y + b.h <= a.height
      && forall y: nat, x: nat :: y < a.height && x < a.width ==> (HotAt(a, cells, peak, y, x) ==> InBox(b, y, x))
  {
    hide Hot, HotAt, Counts, Bucket, CellSize, Reach;
    var cy: nat :| cy < GRID && Hot(cells, peak, cy, e.minX);
    var p := HotPixel(a, cells, s, peak, cy, e.minX);
    ReachFits(p.1, a.width, e.minX, e.maxX);
    var cx: nat :| cx < GRID && Hot(cells, peak, e.minY, cx);
    var q := HotPixel(a, cells, s, peak, e.minY, cx);
    ReachFits(q.0, a.height, e.minY, e.maxY);
    forall y: nat, x: nat | y < a.height && x < a.width && HotAt(a, cells, peak, y, x)
      ensures InBox(BoxOf(e, CellSize(a.width), CellSize(a.height), a.width, a.height), y, x)
    {
      PixelCovered(a, cells, peak, e, y, x);
    }
  }

  lemma PixelCovered(a: Image, cells: seq<nat>, peak: nat, e: Extent, y: nat, x: nat)
    requires |cells| == GRID * GRID && TightExtent(cells, peak, e)
    requires y < a.height && x < a.width && HotAt(a, cells, peak, y, x)
    ensures InBox(BoxOf(e, CellSize(a.width), CellSize(a.height), a.width, a.height), y, x)
  {
    hide Hot, HotAt, Bucket, CellSize, Reach;
    HotAtIff(a, cells, peak, y, x);
    ReachCovers(x, a.width, e.minX, e.maxX);
    ReachCovers(y, a.height, e.minY, e.maxY);
  }

  lemma LeftSide(a: Image, cells: seq<nat>, s: set<Point>, peak: nat, e: Extent)
    requires |cells| == GRID * GRID && Counts(cells, |s|, a, s) && TightExtent(cells, peak, e)
    requires forall p :: p in s ==> p.0 < a.height && p.1 < a.width
    ensures HotColumn(a, cells, peak, e.minX * CellSize(a.width))
  {
    hide Hot, HotAt, Counts, Bucket, CellSize;
    var cy: nat :| cy < GRID && Hot(cells, peak, cy, e.minX);
    var p := HotPixel(a, cells, s, peak, cy, e.minX);
    CellStart(p.1, a.width, e.minX);
    HotAtIff(a, cells, peak, p.0, e.minX * CellSize(a.width));
    assert HotAt(a, cells, peak, p.0, e.minX * CellSize(a.width));
  }

  lemma RightSide(a: Image, cells: seq<nat>, s: set<Point>, peak: nat, e: Extent)
    requires |cells| == GRID * GRID && Counts(cells, |s|, a, s) && TightExtent(cells, peak, e)
    requires forall p :: p in s ==> p.0 < a.height && p.1 < a.width
    ensures var last := e.minX * CellSize(a.width) + Reach(e.minX, e.maxX, CellSize(a.width), a.width) - 1;
      last >= 0 && HotColumn(a, cells, peak, last)
  {
    hide Hot, HotAt, Counts, Bucket, CellSize, Reach;
    var cy: nat :| cy < GRID && Hot(cells, peak, cy, e.maxX);
    var p := HotPixel(a, cells, s, peak, cy, e.maxX);
    Ordered(cells, peak, e);
    CellEnd(p.1, a.width, e.minX, e.maxX);
    HotAtIff(a, cells, peak, p.0, e.minX * CellSize(a.width) + Reach(e.minX, e.maxX, CellSize(a.width), a.width) - 1);
    assert HotAt(a, cells, peak, p.0, e.minX * CellSize(a.width) + Reach(e.minX, e.maxX, CellSize(a.width), a.width) - 1);
  }

  lemma TopSide(a: Image, cells: seq<nat>, s: set<Point>, peak: nat, e: Extent)
    requires |cells| == GRID * GRID && Counts(cells, |s|, a, s) && TightExtent(cells, peak, e)
    requires forall p :: p in s ==> p.0 < a.height && p.1 < a.width
    ensures HotRow(a, cells, peak, e.minY * CellSize(a.height))
  {
    hide Hot, HotAt, Counts, Bucket, CellSize;
    var cx: nat :| cx < GRID && Hot(cells, peak, e.minY, cx);
    var p := HotPixel(a, cells, s, peak, e.minY, cx);
    CellStart(p.0, a.height, e.minY);
    HotAtIff(a, cells, peak, e.minY * CellSize(a.height), p.1);
    assert HotAt(a, cells, peak, e.minY * CellSize(a.height), p.1);
  }

  lemma BottomSide(a: Image, cells: seq<nat>, s: set<Point>, peak: nat, e: Extent)
    requires |cells| == GRID * GRID && Counts(cells, |s|, a, s) && TightExtent(cells, peak, e)
    requires forall p :: p in s ==> p.0 < a.height && p.1 < a.width
    ensures var last := e.minY * CellSize(a.height) + Reach(e.minY, e.maxY, CellSize(a.height), a.height) - 1;
      last >= 0 && HotRow(a, cells, peak, last)
  {
    hide Hot, HotAt, Counts, Bucket, CellSize, Reach;
    var cx: nat :| cx < GRID && Hot(cells, peak, e.maxY, cx);
    var p := HotPixel(a, cells, s, peak, e.maxY, cx);
    Ordered(cells, peak, e);
    CellEnd(p.0, a.height, e.minY, e.maxY);
    HotAtIff(a, cells, peak, e.minY * CellSize(a.height) + Reach(e.minY, e.maxY, CellSize(a.height), a.height) - 1, p.1);
    assert HotAt(a, cells, peak, e.minY * CellSize(a.height) + Reach(e.minY, e.maxY, CellSize(a.height), a.height) - 1, p.1);
  }

  lemma Ordered(cells: seq<nat>, peak: nat, e: Extent)
    requires |cells| == GRID * GRID && TightExtent(cells, peak, e)
    ensures e.minX <= e.maxX && e.minY <= e.maxY
  {
    hide Hot;
  }

  lemma InCellOf(i: nat, size: nat, cell: nat)
    requires 0 < size && cell < GRID && cell * size <= i < (cell + 1) * size
    ensures Bucket(i, size) == cell
  {
    DivModUnique(i, size, cell, i - cell * size);
  }

  lemma CellStart(i: nat, n: nat, cell: nat)
    requires i < n && cell == Bucket(i, CellSize(n))
    ensures cell * CellSize(n) <= i && Bucket(cell * CellSize(n), CellSize(n)) == cell
  {
    hide Bucket, CellSize;
    BucketIsExact(i, n);
    Spread(cell, cell, CellSize(n));
    InCellOf(cell * CellSize(n), CellSize(n), cell);
  }

  lemma CellEnd(i: nat, n: nat, lo: nat, hi: nat)
    requires i < n && hi == Bucket(i, CellSize(n)) && lo <= hi
    ensures var size := CellSize(n); var last := lo * size + Reach(lo, hi, size, n) - 1;
      0 <= last < n && Bucket(last, size) == hi
  {
    hide Bucket, CellSize;
    var size := CellSize(n);
    BucketIsExact(i, n);
    MulOrder(lo, hi, size);
    Spread(lo, hi, size);
    Spread(hi, hi, size);
    InCellOf(lo * size + Reach(lo, hi, size, n) - 1, size, hi);
  }

  lemma ReachFits(i: nat, n: nat, lo: nat, hi: nat)
    requires i < n && lo == Bucket(i, CellSize(n)) && lo <= hi
    ensures var size := CellSize(n); 0 < Reach(lo, hi, size, n) && lo * size + Reach(lo, hi, size, n) <= n
  {
    hide Bucket, CellSize;
    BucketIsExact(i, n);
    MulOrder(1, hi - lo + 1, CellSize(n));
  }

  lemma ReachCovers(i: nat, n: nat, lo: nat, hi: nat)
    requires i < n && lo <= Bucket(i, CellSize(n)) <= hi
    ensures var size := CellSize(n); lo * size <= i < lo * size + Reach(lo, hi, size, n)
  {
    hide Bucket, CellSize;
    var size, cell := CellSize(n), Bucket(i, CellSize(n));
    BucketIsExact(i, n);
    MulOrder(lo, cell, size);
    MulOrder(cell + 1, hi + 1, size);
    Spread(lo, hi, size);
  }

  lemma Spread(lo: nat, hi: nat, size: nat)
    requires lo <= hi
    ensures lo * size + (hi - lo + 1) * size == (hi + 1) * size
  {
  }

  /** A hot cell holds a differing pixel. */
  lemma HotPixel(a: Image, cells: seq<nat>, s: set<Point>, peak: nat, cy: nat, cx: nat) returns (p: Point)
    requires Counts(cells, |s|, a, s) && cy < GRID && cx < GRID && Hot(cells, peak, cy, cx)
    ensures p in s && Bucket(p.0, CellSize(a.height)) == cy && Bucket(p.1, CellSize(a.width)) == cx
  {
    var k := cy * GRID + cx;
    assert |InCell(a, s, k)| > 0;
    p :| p in InCell(a, s, k);
  }

  /** The ratio is in millionths, and not a number for an empty image. */
  datatype DiffResult = DiffResult(
    width: nat, height: nat, ratio: Option<int>, perceptual: real, divergence: Option<Box>, identical: bool)

  /** The share of differing pixels in millionths, rounded to the nearest; none for an empty image. */
  function RatioMicros(differing: nat, total: nat): Option<int> {
    if total == 0 then None else Some((differing as real / total as real * 1000000.0 + 0.5).Floor)
  }

  /** The reported number of millionths is the nearest to the share of differing pixels; halves go up. */
  lemma RatioNearest(differing: nat, total: nat, m: int)
    requires 0 < total
    ensures RatioMicros(differing, total) == Some(m) <==>
              (2 * m - 1) * total <= 2000000 * differing < (2 * m + 1) * total
  {
    var q := differing as real / total as real;
    Share(differing, total, q, (m as real - 0.5) / 1000000.0);
    Share(differing, total, q, (m as real + 0.5) / 1000000.0);
    NearestMicros(q, m);
    Scaled(differing, total, 2 * m - 1);
    Scaled(differing, total, 2 * m + 1);
  }

  lemma NearestMicros(q: real, m: int)
    ensures (q * 1000000.0 + 0.5).Floor == m <==>
              (m as real - 0.5) / 1000000.0 <= q < (m as real + 0.5) / 1000000.0
  {
  }

  lemma Scaled(differing: nat, total: nat, k: int)
    ensures differing as real < k as real / 2000000.0 * total as real <==> 2000000 * differing < k * total
  {
    var p := k * total;
    assert p as real == k as real * total as real;
  }

  /** The reported ratio is 0 for fewer than one differing pixel in two million, not only for none. */
  lemma RatioZero(differing: nat, total: nat)
    requires 0 < total && differing <= total
    ensures RatioMicros(differing, total) == Some(0) <==> 2000000 * differing < total
    ensures RatioMicros(differing, total) == Some(1000000) <==> 2000000 * (total - differing) <= total
  {
    var q := differing as real / total as real;
    Share(differing, total, q, 0.0000005);
    Share(differing, total, q, 0.9999995);
    Share(differing, total, q, 1.0);
    RoundMicros(q);
  }

  lemma OrderByProduct(p: real, q: real, t: real)
    requires t > 0.0
    ensures p < q <==> p * t < q * t
  {
    if p < q {
      assert (q - p) * t > 0.0;
    } else {
      assert (p - q) * t >= 0.0;
    }
  }

  lemma Share(differing: nat, total: nat, q: real, c: real)
    requires 0 < total && q == differing as real / total as real
    ensures q < c <==> differing as real < c * total as real
    ensures q > c <==> differing as real > c * total as real
    ensures q >= 0.0
  {
    var t := total as real;
    assert q * t == differing as real;
    OrderByProduct(q, c, t);
    OrderByProduct(c, q, t);
    OrderByProduct(q, 0.0, t);
  }

  lemma RoundMicros(q: real)
    requires 0.0 <= q
    ensures (q * 1000000.0 + 0.5).Floor == 0 <==> q < 0.0000005
    ensures q <= 1.0 ==> ((q * 1000000.0 + 0.5).Floor == 1000000 <==> q >= 0.9999995)
  {
  }

  /** What the diff reports about two images of equal size whose differing pixels are `s`. */
  ghost predicate Reports(r: DiffResult, cells: seq<nat>, peak: nat, a: Image, s: set<Point>) {
    && r.width == a.width && r.height == a.height
    && (r.identical <==> s == {})
    && r.ratio == RatioMicros(|s|, a.width * a.height)
    && |cells| == GRID * GRID && Total(cells) == |s|
    && (forall k: nat :: k < |cells| ==> cells[k] == |InCell(a, s, k)|)
    && (r.divergence.None? <==> s == {})
    && (r.divergence.Some? ==> IsPeak(cells, peak) && Encloses(r.divergence.value, a, cells, peak))
  }

  /** Images of different sizes are not compared: the box is then all of the larger frame. */
  method DiffImages(a: Image, b: Image, tolerance: real) returns (r: DiffResult)
    requires Whole(a) && Whole(b)
    ensures a.width == b.width && a.height == b.height ==>
      r.perceptual == Perceptual(a, b)
      && exists cells: seq<nat>, peak: nat :: Reports(r, cells, peak, a, DifferingPixels(a, b, tolerance))
    ensures a.width != b.width || a.height != b.height ==>
      var width, height := Max(a.width, b.width), Max(a.height, b.height);
      r == DiffResult(width, height, Some(1000000), 0.0, Some(Box(0, 0, width, height)), false)
  {
    hide Hot, BoxOf, Encloses, DifferingPixels, RatioMicros, InCell, Perceptual;
    if a.width != b.width || a.height != b.height {
      var width, height := Max(a.width, b.width), Max(a.height, b.height);
      return DiffResult(width, height, Some(1000000), 0.0, Some(Box(0, 0, width, height)), false);
    }
    var counters, differing := CountDifferences(a, b, tolerance);
    ghost var cells, peak: nat := counters[..], 0;
    ghost var s := DifferingPixels(a, b, tolerance);
    SumZeros(cells);
    var box: Option<Box> := None;
    if differing != 0 {
      ghost var e;
      box, e, peak := DivergenceBox(counters[..], CellSize(a.width), CellSize(a.height), a.width, a.height);
      PixelsInside(a, b, tolerance);
      BoxEncloses(a, cells, s, peak, e);
    }
    var score := PerceptualScore(a, b);
    r := DiffResult(a.width, a.height, RatioMicros(differing, a.width * a.height), score, box, differing == 0);
    assert Reports(r, cells, peak, a, s);
  }

  lemma PixelsInside(a: Image, b: Image, tolerance: real)
    requires Whole(a) && Whole(b)
    ensures forall p :: p in DifferingPixels(a, b, tolerance) ==> p.0 < a.height && p.1 < a.width
  {
  }
}
