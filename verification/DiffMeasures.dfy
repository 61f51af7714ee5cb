/** The pixel comparison against the perceptual one (src/image/diff.js). */
module DiffMeasures {
  import opened Prelude
  import opened Reals
  import opened Rounding
  import opened Png
  import opened Pixels
  import opened Grid
  import opened Luminance
  import opened Diff

  lemma ChannelNear(p: byte, q: byte, tolerance: real)
    requires !ChannelDiffers(p, q, tolerance)
    ensures -tolerance <= p as real - q as real <= tolerance
  {
  }

  lemma LumaNear(p: seq<byte>, q: seq<byte>, tolerance: real)
    requires |p| == 4 && |q| == 4 && !PixelDiffers(p, q, tolerance)
    ensures -tolerance <= Luma(p) - Luma(q) <= tolerance
  {
    ChannelNear(p[0], q[0], tolerance);
    ChannelNear(p[1], q[1], tolerance);
    ChannelNear(p[2], q[2], tolerance);
  }

  predicate Close(s: Tally, t: Tally, e: real) {
    s.count == t.count && -e * s.count as real <= s.sum - t.sum <= e * s.count as real
  }

  lemma CloseStart(e: real)
    ensures Close(Tally(0.0, 0), Tally(0.0, 0), e)
  {
  }

  lemma CloseStep(s: Tally, t: Tally, l: real, m: real, e: real)
    requires Close(s, t, e) && -e <= l - m <= e
    ensures Close(Tally(s.sum + l, s.count + 1), Tally(t.sum + m, t.count + 1), e)
  {
    assert e * (s.count + 1) as real == e * s.count as real + e;
  }

  ghost predicate SameSize(a: Image, b: Image) {
    Whole(a) && Whole(b) && a.width == b.width && a.height == b.height
  }

  lemma AddClose(a: Image, b: Image, tolerance: real, cell: nat, y: nat, x: nat, s: Tally, t: Tally)
    requires SameSize(a, b) && y < a.height && x < a.width && !Differs(a, b, tolerance, y, x) && Close(s, t, tolerance)
    ensures Close(Add(s, a, cell, y, x), Add(t, b, cell, y, x), tolerance)
  {
    var p, q := PixelOf(a.data, a.width, a.height, y, x), PixelOf(b.data, b.width, b.height, y, x);
    LumaNear(p, q, tolerance);
    assert CellAt(a, y, x) == CellAt(b, y, x);
    hide Luma, PixelOf, CellAt, Close, PixelDiffers;
    CloseStep(s, t, Luma(p), Luma(q), tolerance);
  }

  lemma {:induction false} TallyNear(a: Image, b: Image, tolerance: real, cell: nat, y: nat, x: nat)
    requires SameSize(a, b) && DifferingPixels(a, b, tolerance) == {}
    requires x <= a.width && (y < a.height || (y == a.height && x == 0))
    ensures Close(Before(a, cell, y, x), Before(b, cell, y, x), tolerance)
    decreases y, x
  {
    hide Close, Add, Differs;
    if x > 0 {
      TallyNear(a, b, tolerance, cell, y, x - 1);
      assert !Differs(a, b, tolerance, y, x - 1) by {
        assert (y, x - 1) !in DifferingPixels(a, b, tolerance);
      }
      AddClose(a, b, tolerance, cell, y, x - 1, Before(a, cell, y, x - 1), Before(b, cell, y, x - 1));
    } else if y > 0 {
      TallyNear(a, b, tolerance, cell, y - 1, a.width);
    } else {
      CloseStart(tolerance);
    }
  }

  lemma MeanNear(a: Image, b: Image, tolerance: real, cell: nat)
    requires SameSize(a, b) && DifferingPixels(a, b, tolerance) == {} && tolerance >= 0.0
    ensures Distance(CellMean(a, cell), CellMean(b, cell)) <= tolerance
  {
    hide Before, DifferingPixels, Close, Mean, Distance;
    TallyNear(a, b, tolerance, cell, a.height, 0);
    CloseMeans(Before(a, cell, a.height, 0), Before(b, cell, a.height, 0), tolerance);
  }

  lemma CloseMeans(s: Tally, t: Tally, e: real)
    requires Close(s, t, e) && e >= 0.0
    ensures Distance(Mean(s), Mean(t)) <= e
  {
    if s.count != 0 {
      var n := s.count as real;
      assert Mean(s) == s.sum / n && Mean(t) == t.sum / n;
      hide Mean;
      QuotientNear(s.sum, t.sum, e, n);
    }
  }

  lemma QuotientNear(x: real, y: real, e: real, n: real)
    requires n > 0.0 && -e * n <= x - y <= e * n
    ensures -e <= x / n - y / n <= e
  {
    QuotientOrder(x - y, e * n, n);
    QuotientOrder(-e * n, x - y, n);
    assert e * n / n == e && -e * n / n == -e;
    QuotientSum(x - y, y, n);
  }

  lemma {:induction false} DifferenceNear(a: Image, b: Image, tolerance: real, n: nat)
    requires SameSize(a, b) && DifferingPixels(a, b, tolerance) == {} && tolerance >= 0.0
    ensures GridDifference(a, b, n) <= tolerance * n as real
  {
    hide CellMean, DifferingPixels, Distance;
    if n > 0 {
      DifferenceNear(a, b, tolerance, n - 1);
      MeanNear(a, b, tolerance, n - 1);
    }
  }

  /** Images reported identical are perceptually apart by at most the tolerance. */
  lemma IdenticalIsClose(a: Image, b: Image, tolerance: real)
    requires SameSize(a, b) && DifferingPixels(a, b, tolerance) == {} && tolerance >= 0.0
    ensures Perceptual(a, b) >= Round6(1.0 - tolerance / 255.0)
  {
    DifferenceNear(a, b, tolerance, GRID * GRID);
    hide GridDifference, DifferingPixels, Round6;
    Round6Order(1.0 - tolerance / 255.0, 1.0 - GridDifference(a, b, GRID * GRID) / (GRID * GRID) as real / 255.0);
  }
}
