/** Writing one pixel of an RGBA buffer in place. */
module Painting {
  import opened Prelude
  import opened RowFilters
  import opened Pixels

  /** Pixel (u, v) after a write of `colour` to pixel (x, y) only. */
  ghost predicate WroteOnly(now: seq<byte>, was: seq<byte>, width: nat, height: nat, colour: seq<byte>, y: nat, x: nat,
                            v: nat, u: nat)
    requires |now| == |was| == Offset(width * 4, height) && v < height && u < width
  {
    PixelOf(now, width, height, v, u) == if v == y && u == x then colour else PixelOf(was, width, height, v, u)
  }

  method PutPixel(data: array<byte>, width: nat, height: nat, colour: seq<byte>, y: nat, x: nat)
    requires y < height && x < width && data.Length == Offset(width * 4, height) && |colour| == 4
    modifies data
    ensures forall v: nat, u: nat :: v < height && u < width ==>
              WroteOnly(data[..], old(data[..]), width, height, colour, y, x, v, u)
  {
    ghost var before := data[..];
    PixelFits(width, height, y, x);
    var offset := PixelOffset(width, y, x);
    data[offset], data[offset + 1], data[offset + 2], data[offset + 3] := colour[0], colour[1], colour[2], colour[3];
    forall v: nat, u: nat | v < height && u < width
      ensures WroteOnly(data[..], before, width, height, colour, y, x, v, u)
    {
      OtherPixel(data[..], before, width, height, colour, y, x, v, u);
    }
  }

  /** A write to one pixel does not reach another. */
  lemma OtherPixel(now: seq<byte>, was: seq<byte>, width: nat, height: nat, colour: seq<byte>, y: nat, x: nat, v: nat, u: nat)
    requires |now| == |was| == Offset(width * 4, height) && y < height && x < width && v < height && u < width
    requires forall i :: 0 <= i < |now| && !(0 <= i - PixelOffset(width, y, x) < 4) ==> now[i] == was[i]
    requires PixelOf(now, width, height, y, x) == colour
    ensures WroteOnly(now, was, width, height, colour, y, x, v, u)
  {
    if v != y || u != x {
      PixelsApart(width, y, x, v, u);
      PixelFits(width, height, v, u);
    }
  }
}
