/** Where the four-byte pixels of an RGBA image are in its buffer. */
module Pixels {
  import opened Prelude
  import opened RowFilters

  /** Where pixel (x, y) starts in a buffer of rows of `width` pixels. */
  function PixelOffset(width: nat, y: nat, x: nat): nat {
    Offset(width * 4, y) + 4 * x
  }

  lemma PixelFits(width: nat, height: nat, y: nat, x: nat)
    requires y < height && x < width
    ensures PixelOffset(width, y, x) + 4 <= Offset(width * 4, y) + width * 4 <= Offset(width * 4, height)
  {
  }

  function PixelOf(data: seq<byte>, width: nat, height: nat, y: nat, x: nat): (rgba: seq<byte>)
    requires |data| == Offset(width * 4, height) && y < height && x < width
    ensures |rgba| == 4
  {
    PixelFits(width, height, y, x);
    data[PixelOffset(width, y, x)..PixelOffset(width, y, x) + 4]
  }

  lemma PixelBytes(data: seq<byte>, width: nat, height: nat, y: nat, x: nat)
    requires |data| == Offset(width * 4, height) && y < height && x < width
    ensures var i := PixelOffset(width, y, x);
      i + 4 <= |data| && PixelOf(data, width, height, y, x) == [data[i], data[i + 1], data[i + 2], data[i + 3]]
  {
    hide Offset;
    PixelFits(width, height, y, x);
  }

  lemma PixelsApart(width: nat, y: nat, x: nat, y': nat, x': nat)
    requires x < width && x' < width && (y != y' || x != x')
    ensures PixelOffset(width, y, x) + 4 <= PixelOffset(width, y', x')
      || PixelOffset(width, y', x') + 4 <= PixelOffset(width, y, x)
  {
    if y < y' {
      RowFits(width * 4, y, y');
    } else if y' < y {
      RowFits(width * 4, y', y);
    }
  }

  /** The pixel that byte `k` belongs to. */
  lemma {:induction false} Locate(width: nat, height: nat, k: nat) returns (y: nat, x: nat)
    requires k < Offset(width * 4, height)
    ensures y < height && x < width && PixelOffset(width, y, x) <= k < PixelOffset(width, y, x) + 4
  {
    var above := Offset(width * 4, height - 1);
    if k < above {
      y, x := Locate(width, height - 1, k);
    } else {
      y, x := height - 1, (k - above) / 4;
    }
  }

  /** A buffer is its pixels. */
  lemma SamePixels(a: seq<byte>, b: seq<byte>, width: nat, height: nat)
    requires |a| == |b| == Offset(width * 4, height)
    requires forall y: nat, x: nat :: y < height && x < width ==>
               PixelOf(a, width, height, y, x) == PixelOf(b, width, height, y, x)
    ensures a == b
  {
    forall k: nat | k < |a| ensures a[k] == b[k] {
      var y, x := Locate(width, height, k);
      PixelFits(width, height, y, x);
      assert a[k] == PixelOf(a, width, height, y, x)[k - PixelOffset(width, y, x)];
      assert b[k] == PixelOf(b, width, height, y, x)[k - PixelOffset(width, y, x)];
    }
  }
}
