/** The coarse perceptual comparison: mean luminance on the grid of cells (src/image/diff.js). */
module Luminance {
  import opened Prelude
  import opened Reals
  import opened Rounding
  import opened RowFilters
  import opened Png
  import opened Pixels
  import opened Grid

  function Luma(rgba: seq<byte>): (luma: real)
    requires |rgba| == 4
    ensures 0.0 <= luma <= 255.0
  {
    0.2126 * rgba[0] as real + 0.7152 * rgba[1] as real + 0.0722 * rgba[2] as real
  }

  datatype Tally = Tally(sum: real, count: nat)

  /** One pixel, as far as it lies in the cell. */
  function Add(t: Tally, a: Image, cell: nat, y: nat, x: nat): Tally
    requires Whole(a) && y < a.height && x < a.width
  {
    if CellAt(a, y, x) == cell then Tally(t.sum + Luma(PixelOf(a.data, a.width, a.height, y, x)), t.count + 1) else t
  }

  /** The pixels of a cell that come before (x, y) in row order. */
  function Before(a: Image, cell: nat, y: nat, x: nat): (t: Tally)
    requires Whole(a) && x <= a.width && (y < a.height || (y == a.height && x == 0))
    ensures 0.0 <= t.sum <= 255.0 * t.count as real
    decreases y, x
  {
    if x > 0 then Add(Before(a, cell, y, x - 1), a, cell, y, x - 1)
    else if y > 0 then Before(a, cell, y - 1, a.width)
    else Tally(0.0, 0)
  }

  function Mean(t: Tally): real {
    if t.count == 0 then 0.0 else t.sum / t.count as real
  }

  /** The mean luminance of a cell, and 0 for a cell without pixels. */
  function CellMean(a: Image, cell: nat): real
    requires Whole(a)
  {
    Mean(Before(a, cell, a.height, 0))
  }

  /** The Rec. 709 luminance of a pixel lies in a range. */
  predicate LumaIn(rgba: seq<byte>, lo: real, hi: real)
    requires |rgba| == 4
  {
    var red, green, blue := rgba[0] as real, rgba[1] as real, rgba[2] as real;
    lo <= (2126.0 * red + 7152.0 * green + 722.0 * blue) / 10000.0 <= hi
  }

  ghost predicate CellIn(a: Image, cell: nat, lo: real, hi: real, v: nat, u: nat)
    requires Whole(a) && v < a.height && u < a.width
  {
    CellAt(a, v, u) == cell ==> LumaIn(PixelOf(a.data, a.width, a.height, v, u), lo, hi)
  }

  predicate SumIn(t: Tally, lo: real, hi: real) {
    lo * t.count as real <= t.sum <= hi * t.count as real
  }

  ghost predicate AllIn(a: Image, cell: nat, lo: real, hi: real)
    requires Whole(a)
  {
    forall v: nat, u: nat :: v < a.height && u < a.width ==> CellIn(a, cell, lo, hi, v, u)
  }

  lemma {:induction false} BeforeBetween(a: Image, cell: nat, lo: real, hi: real, y: nat, x: nat)
    requires Whole(a) && x <= a.width && (y < a.height || (y == a.height && x == 0)) && AllIn(a, cell, lo, hi)
    ensures SumIn(Before(a, cell, y, x), lo, hi)
    decreases y, x
  {
    hide PixelOf, CellAt, Luma, CellIn, SumIn, AllIn, Add, Offset;
    if x > 0 {
      BeforeBetween(a, cell, lo, hi, y, x - 1);
      AddBetween(Before(a, cell, y, x - 1), a, cell, lo, hi, y, x - 1);
    } else if y > 0 {
      BeforeBetween(a, cell, lo, hi, y - 1, a.width);
    } else {
      NoneIn(lo, hi);
    }
  }

  lemma NoneIn(lo: real, hi: real)
    ensures SumIn(Tally(0.0, 0), lo, hi)
  {
  }

  lemma AddBetween(t: Tally, a: Image, cell: nat, lo: real, hi: real, y: nat, x: nat)
    requires Whole(a) && y < a.height && x < a.width && AllIn(a, cell, lo, hi) && SumIn(t, lo, hi)
    ensures SumIn(Add(t, a, cell, y, x), lo, hi)
  {
    hide PixelOf, CellAt, Offset;
    assert CellIn(a, cell, lo, hi, y, x);
    assert lo * (t.count + 1) as real == lo * t.count as real + lo;
    assert hi * (t.count + 1) as real == hi * t.count as real + hi;
  }

  lemma {:induction false} PixelCounts(a: Image, cell: nat, v: nat, u: nat, y: nat, x: nat)
    requires Whole(a) && v < a.height && u < a.width && CellAt(a, v, u) == cell
    requires x <= a.width && (y < a.height || (y == a.height && x == 0)) && (v < y || (v == y && u < x))
    ensures Before(a, cell, y, x).count > 0
    decreases y, x
  {
    hide PixelOf, CellAt, Luma;
    if x > 0 {
      if v < y || u < x - 1 {
        PixelCounts(a, cell, v, u, y, x - 1);
      }
    } else {
      PixelCounts(a, cell, v, u, y - 1, a.width);
    }
  }

  /** The mean of a cell that has a pixel lies between any bounds of its pixels' luminance. */
  lemma MeanBetween(a: Image, cell: nat, lo: real, hi: real, y: nat, x: nat)
    requires Whole(a) && y < a.height && x < a.width && CellAt(a, y, x) == cell
    requires AllIn(a, cell, lo, hi)
    ensures lo <= CellMean(a, cell) <= hi
  {
    hide CellAt, Before, AllIn, Mean, SumIn;
    BeforeBetween(a, cell, lo, hi, a.height, 0);
    PixelCounts(a, cell, y, x, a.height, 0);
    SharesIn(Before(a, cell, a.height, 0), lo, hi);
  }

  lemma SharesIn(t: Tally, lo: real, hi: real)
    requires t.count > 0 && SumIn(t, lo, hi)
    ensures lo <= Mean(t) <= hi
  {
    var n := t.count as real;
    Undivided(lo, n);
    Undivided(hi, n);
    QuotientOrder(lo * n, t.sum, n);
    QuotientOrder(t.sum, hi * n, n);
  }

  lemma Undivided(x: real, n: real)
    requires n > 0.0
    ensures x * n / n == x
  {
  }

  /** Adds one pixel to its cell. */
  method AddPixel(out: array<real>, counts: array<nat>, a: Image, y: nat, x: nat)
    requires Whole(a) && y < a.height && x < a.width && out.Length == counts.Length == GRID * GRID
    requires forall cell: nat :: cell < GRID * GRID ==> Tally(out[cell], counts[cell]) == Before(a, cell, y, x)
    modifies out, counts
    ensures forall cell: nat :: cell < GRID * GRID ==> Tally(out[cell], counts[cell]) == Before(a, cell, y, x + 1)
  {
    hide CellAt, Luma, PixelOf, PixelOffset, Offset;
    PixelBytes(a.data, a.width, a.height, y, x);
    var i := PixelOffset(a.width, y, x);
    var luma := 0.2126 * a.data[i] as real + 0.7152 * a.data[i + 1] as real + 0.0722 * a.data[i + 2] as real;
    LumaIs(a, y, x, luma);
    var cell := CellAt(a, y, x);
    out[cell] := out[cell] + luma;
    counts[cell] := counts[cell] + 1;
  }

  lemma LumaIs(a: Image, y: nat, x: nat, luma: real)
    requires Whole(a) && y < a.height && x < a.width
    requires var i := PixelOffset(a.width, y, x);
      i + 4 <= |a.data|
      && luma == 0.2126 * a.data[i] as real + 0.7152 * a.data[i + 1] as real + 0.0722 * a.data[i + 2] as real
    ensures Luma(PixelOf(a.data, a.width, a.height, y, x)) == luma
  {
    PixelBytes(a.data, a.width, a.height, y, x);
    hide PixelOf, PixelOffset, Offset;
  }

  lemma NoneBefore(a: Image)
    requires Whole(a)
    ensures forall cell :: Before(a, cell, 0, 0) == Tally(0.0, 0)
  {
  }

  lemma NextRow(a: Image, y: nat)
    requires Whole(a) && y < a.height
    ensures forall cell :: Before(a, cell, y + 1, 0) == Before(a, cell, y, a.width)
  {
  }

  /** The accumulating loops and the division compute the mean of each cell. */
  method LumaGrid(a: Image) returns (out: array<real>)
    requires Whole(a)
    ensures fresh(out) && out.Length == GRID * GRID
    ensures forall cell: nat :: cell < GRID * GRID ==> out[cell] == CellMean(a, cell)
  {
    hide Before;
    out := new real[GRID * GRID](_ => 0.0);
    var counts := new nat[GRID * GRID](_ => 0);
    NoneBefore(a);
    for y := 0 to a.height
      invariant forall cell: nat :: cell < GRID * GRID ==> Tally(out[cell], counts[cell]) == Before(a, cell, y, 0)
    {
      for x := 0 to a.width
        invariant forall cell: nat :: cell < GRID * GRID ==> Tally(out[cell], counts[cell]) == Before(a, cell, y, x)
      {
        AddPixel(out, counts, a, y, x);
      }
      NextRow(a, y);
    }
    for i := 0 to GRID * GRID
      invariant forall cell: nat :: cell < i ==> out[cell] == CellMean(a, cell)
      invariant forall cell: nat :: i <= cell < GRID * GRID ==>
                  Tally(out[cell], counts[cell]) == Before(a, cell, a.height, 0)
    {
      assert Tally(out[i], counts[i]) == Before(a, i, a.height, 0);
      if counts[i] != 0 {
        out[i] := out[i] / counts[i] as real;
      } else {
        EmptyCell(a, i);
      }
    }
  }

  lemma EmptyCell(a: Image, cell: nat)
    requires Whole(a) && Before(a, cell, a.height, 0).count == 0
    ensures Before(a, cell, a.height, 0).sum == 0.0
  {
  }

  lemma MeanInRange(a: Image, cell: nat)
    requires Whole(a)
    ensures 0.0 <= CellMean(a, cell) <= 255.0
  {
    hide Before;
    var t := Before(a, cell, a.height, 0);
    if t.count != 0 {
      NonNegativeQuotient(t.sum, t.count as real);
      QuotientOrder(t.sum, 255.0 * t.count as real, t.count as real);
      assert 255.0 * t.count as real / t.count as real == 255.0;
    }
  }

  function Distance(x: real, y: real): real {
    if x >= y then x - y else y - x
  }

  /** The mean luminances of the first `n` cells, by how far they are apart. */
  function GridDifference(a: Image, b: Image, n: nat): real
    requires Whole(a) && Whole(b)
  {
    if n == 0 then 0.0 else GridDifference(a, b, n - 1) + Distance(CellMean(a, n - 1), CellMean(b, n - 1))
  }

  function Perceptual(a: Image, b: Image): real
    requires Whole(a) && Whole(b)
  {
    Round6(1.0 - GridDifference(a, b, GRID * GRID) / (GRID * GRID) as real / 255.0)
  }

  method PerceptualScore(a: Image, b: Image) returns (score: real)
    requires Whole(a) && Whole(b)
    ensures score == Perceptual(a, b)
  {
    hide CellMean, Round6;
    var ga := LumaGrid(a);
    var gb := LumaGrid(b);
    var sum := 0.0;
    for i := 0 to ga.Length
      invariant sum == GridDifference(a, b, i)
    {
      sum := sum + Distance(ga[i], gb[i]);
    }
    score := Round6(1.0 - sum / ga.Length as real / 255.0);
  }

  lemma {:induction false} DifferenceBound(a: Image, b: Image, n: nat)
    requires Whole(a) && Whole(b)
    ensures 0.0 <= GridDifference(a, b, n) <= 255.0 * n as real
    ensures GridDifference(a, b, n) == GridDifference(b, a, n)
  {
    hide CellMean;
    if n > 0 {
      DifferenceBound(a, b, n - 1);
      MeanInRange(a, n - 1);
      MeanInRange(b, n - 1);
    }
  }

  lemma RoundsToOne(d: real)
    requires d >= 0.0
    ensures Round6(1.0 - d) == 1.0 <==> d <= 0.0000005
    ensures d <= 1.0 ==> 0.0 <= Round6(1.0 - d) <= 1.0
  {
    NearestIs((1.0 - d) * 1000000.0);
  }

  /** The score lies in [0, 1] and does not depend on the order of the images; it is 1 exactly when the
      mean luminances of the cells are, on average, apart by at most half a millionth of the range. */
  lemma ScoreInUnit(a: Image, b: Image)
    requires Whole(a) && Whole(b)
    ensures 0.0 <= Perceptual(a, b) <= 1.0 && Perceptual(a, b) == Perceptual(b, a)
    ensures Perceptual(a, b) == 1.0 <==> GridDifference(a, b, GRID * GRID) <= 0.0000005 * 255.0 * 256.0
  {
    hide GridDifference, Round6;
    DifferenceBound(a, b, GRID * GRID);
    RoundsToOne(GridDifference(a, b, GRID * GRID) / (GRID * GRID) as real / 255.0);
  }

  lemma {:induction false} SameImage(a: Image, n: nat)
    requires Whole(a)
    ensures GridDifference(a, a, n) == 0.0
  {
    if n > 0 {
      SameImage(a, n - 1);
    }
  }

  /** Identical images score 1. */
  lemma IdenticalScoreOne(a: Image)
    requires Whole(a)
    ensures Perceptual(a, a) == 1.0
  {
    SameImage(a, GRID * GRID);
    ScoreInUnit(a, a);
  }
}
