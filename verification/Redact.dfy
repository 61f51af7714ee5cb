/** Screenshot redaction of src/image/redact.js: padded rectangles painted opaque black. */
module Redact {
  import opened Prelude
  import opened Integers
  import opened Crc
  import opened RowFilters
  import opened Png
  import opened PngFormat
  import opened Pixels
  import opened Painting

  /** In CSS pixels. */
  datatype Rect = Rect(x: real, y: real, width: real, height: real)

  datatype Viewport = Viewport(originX: real, originY: real, cssWidth: real, cssHeight: real, padding: real)

  datatype RedactError =
    | NoRectangles | BadViewport | NotDecoded(e: PngError) | BadScale | BadRectangle | NotEncoded(e: PngError)

  /** In image pixels: columns `left` to `right` and rows `top` to `bottom`, both half open. */
  datatype Box = Box(left: int, top: int, right: int, bottom: int)

  const BLACK: seq<byte> := [0, 0, 0, 255]

  function Ceil(x: real): int {
    -((-x).Floor)
  }

  predicate ValidViewport(v: Viewport) {
    v.cssWidth > 0.0 && v.cssHeight > 0.0 && 0.0 <= v.padding <= 128.0
  }

  predicate ValidRect(r: Rect) {
    r.width > 0.0 && r.height > 0.0
  }

  /** The padded rectangle, clipped to the image and rounded outwards. */
  function BoxOf(r: Rect, v: Viewport, image: Image): Box
    requires ValidViewport(v)
  {
    var scaleX, scaleY := image.width as real / v.cssWidth, image.height as real / v.cssHeight;
    Box(First(r.x - v.originX - v.padding, scaleX), First(r.y - v.originY - v.padding, scaleY),
        End(r.x + r.width - v.originX + v.padding, scaleX, image.width),
        End(r.y + r.height - v.originY + v.padding, scaleY, image.height))
  }

  /** The pixel that a distance from the origin falls in, at least the first. */
  function First(d: real, scale: real): int {
    Max(0, (d * scale).Floor)
  }

  /** The pixel that a distance from the origin does not reach, at most the one after the last. */
  function End(d: real, scale: real, size: nat): int {
    Min(size, Ceil(d * scale))
  }

  predicate InBox(b: Box, y: nat, x: nat) {
    b.left <= x < b.right && b.top <= y < b.bottom
  }

  /** The open interval from `lo` to `hi` meets the unit interval that starts at `n`. */
  predicate Meets(lo: real, hi: real, n: nat) {
    lo < n as real + 1.0 && n as real < hi
  }

  /** The square of pixel (x, y) meets the padded rectangle, scaled to the image. */
  predicate Touches(r: Rect, v: Viewport, image: Image, y: nat, x: nat)
    requires ValidViewport(v)
  {
    var scaleX, scaleY := image.width as real / v.cssWidth, image.height as real / v.cssHeight;
    && ScaledMeets(r.x - v.originX - v.padding, r.x + r.width - v.originX + v.padding, scaleX, x)
    && ScaledMeets(r.y - v.originY - v.padding, r.y + r.height - v.originY + v.padding, scaleY, y)
  }

  predicate ScaledMeets(lo: real, hi: real, scale: real, n: nat) {
    Meets(lo * scale, hi * scale, n)
  }

  lemma FloorCeil(lo: real, hi: real, n: nat, size: nat)
    requires n < size
    ensures Max(0, lo.Floor) <= n < Min(size, Ceil(hi)) <==> Meets(lo, hi, n)
  {
  }

  lemma FirstEnd(lo: real, hi: real, scale: real, n: nat, size: nat)
    requires n < size
    ensures First(lo, scale) <= n < End(hi, scale, size) <==> ScaledMeets(lo, hi, scale, n)
  {
    hide Meets;
    FloorCeil(lo * scale, hi * scale, n, size);
  }

  /** Floor, ceiling and clipping select exactly the pixels the padded rectangle meets. */
  lemma BoxIsExact(r: Rect, v: Viewport, image: Image, y: nat, x: nat)
    requires ValidViewport(v) && y < image.height && x < image.width
    ensures InBox(BoxOf(r, v, image), y, x) <==> Touches(r, v, image, y, x)
  {
    hide First, End, ScaledMeets;
    var scaleX, scaleY := image.width as real / v.cssWidth, image.height as real / v.cssHeight;
    FirstEnd(r.x - v.originX - v.padding, r.x + r.width - v.originX + v.padding, scaleX, x, image.width);
    FirstEnd(r.y - v.originY - v.padding, r.y + r.height - v.originY + v.padding, scaleY, y, image.height);
  }

  /** The point (px, py) of the page is within the padding of the rectangle, and the image shows it inside
      pixel (x, y): the page's visible part, from its origin, is stretched over the whole image. */
  predicate ShowsPoint(r: Rect, v: Viewport, image: Image, y: nat, x: nat, px: real, py: real)
    requires ValidViewport(v)
  {
    && r.x - v.padding < px < r.x + r.width + v.padding
    && r.y - v.padding < py < r.y + r.height + v.padding
    && ShownIn(px - v.originX, v.cssWidth, image.width, x)
    && ShownIn(py - v.originY, v.cssHeight, image.height, y)
  }

  /** A distance on the page falls inside the n-th of `size` equal parts of the whole length. */
  predicate ShownIn(d: real, length: real, size: nat, n: nat) {
    n as real * length < d * size as real < (n as real + 1.0) * length
  }

  lemma ShownAt(d: real, t: real, scale: real, length: real, size: nat, n: nat)
    requires length > 0.0 && scale == size as real / length && t == d * scale
    ensures ShownIn(d, length, size, n) <==> n as real < t < n as real + 1.0
  {
    assert scale * length == size as real;
    Regroup(d, scale, length);
    assert t * length == d * size as real;
    var lo, hi := n as real, n as real + 1.0;
    Cancel(lo, t, length);
    Cancel(t, hi, length);
    assert lo < t <==> lo * length < d * size as real;
    assert t < hi <==> d * size as real < hi * length;
  }

  lemma Regroup(x: real, y: real, z: real)
    ensures x * y * z == x * (y * z)
  {
  }

  lemma Cancel(p: real, q: real, d: real)
    requires d > 0.0
    ensures p < q <==> p * d < q * d
  {
    if p < q {
      assert (q - p) * d > 0.0;
    } else {
      assert (p - q) * d >= 0.0;
    }
  }

  lemma Between(lo: real, hi: real, n: nat) returns (t: real)
    requires lo < hi && Meets(lo, hi, n)
    ensures lo < t < hi && n as real < t < n as real + 1.0
  {
    var from := if lo < n as real then n as real else lo;
    var to := if hi < n as real + 1.0 then hi else n as real + 1.0;
    t := (from + to) / 2.0;
  }

  lemma ScaledBetween(lo: real, hi: real, scale: real, n: nat) returns (t: real)
    requires lo < hi && scale > 0.0 && ScaledMeets(lo, hi, scale, n)
    ensures lo * scale < t < hi * scale && n as real < t < n as real + 1.0
  {
    hide Meets;
    var a, b := lo * scale, hi * scale;
    assert Meets(a, b, n);
    Cancel(lo, hi, scale);
    t := Between(a, b, n);
  }

  /** When an interval of the page meets the interval of a pixel, the pixel shows one of its points. */
  lemma MeetsAt(lo: real, hi: real, scale: real, length: real, size: nat, n: nat) returns (d: real)
    requires lo < hi && scale > 0.0 && length > 0.0 && scale == size as real / length && ScaledMeets(lo, hi, scale, n)
    ensures lo < d < hi && ShownIn(d, length, size, n)
  {
    hide ScaledMeets, ShownIn;
    var t := ScaledBetween(lo, hi, scale, n);
    d := t / scale;
    assert d * scale == t;
    Cancel(lo, d, scale);
    Cancel(d, hi, scale);
    ShownAt(d, t, scale, length, size, n);
  }

  lemma ShownMeets(lo: real, hi: real, scale: real, d: real, length: real, size: nat, n: nat)
    requires lo < hi && scale > 0.0 && length > 0.0 && scale == size as real / length
    requires lo < d < hi && ShownIn(d, length, size, n)
    ensures ScaledMeets(lo, hi, scale, n)
  {
    hide ShownIn;
    ShownAt(d, d * scale, scale, length, size, n);
    Cancel(lo, d, scale);
    Cancel(d, hi, scale);
  }

  lemma Positive(length: real, size: nat)
    requires length > 0.0 && size > 0
    ensures size as real / length > 0.0
  {
  }

  /** A pixel is touched exactly when it shows some point within the padding of the rectangle. */
  lemma TouchesIff(r: Rect, v: Viewport, image: Image, y: nat, x: nat)
    requires ValidViewport(v) && ValidRect(r) && y < image.height && x < image.width
    ensures Touches(r, v, image, y, x) <==> exists px, py :: ShowsPoint(r, v, image, y, x, px, py)
  {
    hide ScaledMeets, ShownIn;
    var scaleX, scaleY := image.width as real / v.cssWidth, image.height as real / v.cssHeight;
    Positive(v.cssWidth, image.width);
    Positive(v.cssHeight, image.height);
    var left, right := r.x - v.originX - v.padding, r.x + r.width - v.originX + v.padding;
    var top, bottom := r.y - v.originY - v.padding, r.y + r.height - v.originY + v.padding;
    if Touches(r, v, image, y, x) {
      var dx := MeetsAt(left, right, scaleX, v.cssWidth, image.width, x);
      var dy := MeetsAt(top, bottom, scaleY, v.cssHeight, image.height, y);
      var px, py := dx + v.originX, dy + v.originY;
      assert px - v.originX == dx && py - v.originY == dy;
      assert ShowsPoint(r, v, image, y, x, px, py);
    }
    forall px, py | ShowsPoint(r, v, image, y, x, px, py) ensures Touches(r, v, image, y, x) {
      ShownMeets(left, right, scaleX, px - v.originX, v.cssWidth, image.width, x);
      ShownMeets(top, bottom, scaleY, py - v.originY, v.cssHeight, image.height, y);
    }
  }

  // ---- painting -----------------------------------------------------------------------------

  predicate InAny(boxes: seq<Box>, y: nat, x: nat) {
    exists i :: 0 <= i < |boxes| && InBox(boxes[i], y, x)
  }

  ghost predicate PaintedAt(now: seq<byte>, was: seq<byte>, width: nat, height: nat, hit: bool, y: nat, x: nat)
    requires |now| == |was| == Offset(width * 4, height) && y < height && x < width
  {
    PixelOf(now, width, height, y, x) == if hit then [0, 0, 0, 255] else PixelOf(was, width, height, y, x)
  }

  ghost predicate PaintedIn(now: seq<byte>, was: seq<byte>, width: nat, height: nat, boxes: seq<Box>, y: nat, x: nat)
    requires |now| == |was| == Offset(width * 4, height) && y < height && x < width
  {
    PaintedAt(now, was, width, height, InAny(boxes, y, x), y, x)
  }

  /** The pixels in any of the boxes are black and every other pixel is as it was. */
  ghost predicate Painted(now: seq<byte>, was: seq<byte>, width: nat, height: nat, boxes: seq<Box>) {
    && |now| == |was| == Offset(width * 4, height)
    && forall y: nat, x: nat :: y < height && x < width ==> PaintedIn(now, was, width, height, boxes, y, x)
  }

  method PaintBox(data: array<byte>, width: nat, height: nat, b: Box, ghost was: seq<byte>, ghost boxes: seq<Box>)
    requires b.left >= 0 && b.top >= 0 && b.right <= width && b.bottom <= height
    requires Painted(data[..], was, width, height, boxes)
    modifies data
    ensures Painted(data[..], was, width, height, boxes + [b])
  {
    var y := b.top;
    ghost var done := boxes;
    while y < b.bottom
      invariant b.top <= y && (y <= b.bottom || y == b.top) && Painted(data[..], was, width, height, done)
      invariant forall v: nat, u: nat :: InAny(done, v, u) <==> InAny(boxes, v, u) || (InBox(b, v, u) && v < y)
    {
      var x := b.left;
      while x < b.right
        invariant b.left <= x && (x <= b.right || x == b.left) && Painted(data[..], was, width, height, done)
        invariant forall v: nat, u: nat :: InAny(done, v, u) <==>
                    InAny(boxes, v, u) || (InBox(b, v, u) && (v < y || (v == y && u < x)))
      {
        ghost var before, doneBefore := data[..], done;
        PutPixel(data, width, height, BLACK, y, x);
        done := done + [Box(x, y, x + 1, y + 1)];
        OneMore(doneBefore, y, x);
        PaintedMore(data[..], before, was, width, height, doneBefore, y, x);
        x := x + 1;
      }
      y := y + 1;
    }
    SameBoxes(data[..], was, width, height, done, boxes + [b]) by {
      forall v: nat, u: nat ensures InAny(boxes + [b], v, u) <==> InAny(boxes, v, u) || InBox(b, v, u) {
        InAppended(boxes, b, v, u);
      }
    }
  }

  lemma InAppended(boxes: seq<Box>, b: Box, v: nat, u: nat)
    ensures InAny(boxes + [b], v, u) <==> InAny(boxes, v, u) || InBox(b, v, u)
  {
    if InAny(boxes, v, u) {
      var i :| 0 <= i < |boxes| && InBox(boxes[i], v, u);
      assert (boxes + [b])[i] == boxes[i];
    }
    assert (boxes + [b])[|boxes|] == b;
  }

  lemma OneMore(boxes: seq<Box>, y: nat, x: nat)
    ensures forall v: nat, u: nat :: InAny(boxes + [Box(x, y, x + 1, y + 1)], v, u) <==> InAny(boxes, v, u) || (v == y && u == x)
  {
    forall v: nat, u: nat
      ensures InAny(boxes + [Box(x, y, x + 1, y + 1)], v, u) <==> InAny(boxes, v, u) || (v == y && u == x)
    {
      InAppended(boxes, Box(x, y, x + 1, y + 1), v, u);
    }
  }

  lemma PaintedMore(now: seq<byte>, before: seq<byte>, was: seq<byte>, width: nat, height: nat, boxes: seq<Box>, y: nat, x: nat)
    requires Painted(before, was, width, height, boxes) && |now| == |before|
    requires forall v: nat, u: nat :: v < height && u < width ==>
               WroteOnly(now, before, width, height, BLACK, y, x, v, u)
    ensures Painted(now, was, width, height, boxes + [Box(x, y, x + 1, y + 1)])
  {
    var more := boxes + [Box(x, y, x + 1, y + 1)];
    OneMore(boxes, y, x);
    forall v: nat, u: nat | v < height && u < width ensures PaintedIn(now, was, width, height, more, v, u)
    {
      assert WroteOnly(now, before, width, height, BLACK, y, x, v, u);
      assert PaintedIn(before, was, width, height, boxes, v, u);
    }
  }

  lemma SameBoxes(now: seq<byte>, was: seq<byte>, width: nat, height: nat, a: seq<Box>, b: seq<Box>)
    requires Painted(now, was, width, height, a)
    requires forall v: nat, u: nat :: v < height && u < width ==> (InAny(a, v, u) <==> InAny(b, v, u))
    ensures Painted(now, was, width, height, b)
  {
    forall v: nat, u: nat | v < height && u < width
      ensures PaintedIn(now, was, width, height, b, v, u)
    {
      assert PaintedIn(now, was, width, height, a, v, u);
    }
  }

  /** Some rectangle, padded and scaled, meets the pixel's square. */
  predicate Covered(rects: seq<Rect>, v: Viewport, image: Image, y: nat, x: nat)
    requires ValidViewport(v)
  {
    exists i :: 0 <= i < |rects| && Touches(rects[i], v, image, y, x)
  }

  function BoxesOf(rects: seq<Rect>, v: Viewport, image: Image, n: nat): (boxes: seq<Box>)
    requires ValidViewport(v) && n <= |rects|
    ensures |boxes| == n && forall i :: 0 <= i < n ==> boxes[i] == BoxOf(rects[i], v, image)
  {
    if n == 0 then [] else BoxesOf(rects, v, image, n - 1) + [BoxOf(rects[n - 1], v, image)]
  }

  lemma BoxesAreExact(rects: seq<Rect>, v: Viewport, image: Image, y: nat, x: nat)
    requires ValidViewport(v) && y < image.height && x < image.width
    ensures InAny(BoxesOf(rects, v, image, |rects|), y, x) <==> Covered(rects, v, image, y, x)
  {
    hide BoxOf, Touches, InBox;
    forall i | 0 <= i < |rects|
      ensures InBox(BoxOf(rects[i], v, image), y, x) == Touches(rects[i], v, image, y, x)
    {
      BoxIsExact(rects[i], v, image, y, x);
    }
  }

  // ---- the whole operation ------------------------------------------------------------------

  /** The checks made before anything is painted or written, in the order they are made. */
  function Admit(z: Zlib, png: seq<byte>, rects: seq<Rect>, v: Viewport): Result<Image, RedactError> {
    if rects == [] then Err(NoRectangles)
    else if !ValidViewport(v) then Err(BadViewport)
    else
      var image := Decode(z, png);
      if image.Err? then Err(NotDecoded(image.error))
      else if image.value.width == 0 || image.value.height == 0 then Err(BadScale)
      else if exists i :: 0 <= i < |rects| && !ValidRect(rects[i]) then Err(BadRectangle)
      else Ok(image.value)
  }

  ghost predicate RedactedAt(now: Image, image: Image, rects: seq<Rect>, v: Viewport, y: nat, x: nat)
    requires ValidViewport(v) && y < image.height && x < image.width
    requires |now.data| == |image.data| == Offset(image.width * 4, image.height)
  {
    PaintedAt(now.data, image.data, image.width, image.height, Covered(rects, v, image, y, x), y, x)
  }

  /** `now` is `image` with every covered pixel black and every other pixel unchanged. */
  ghost predicate RedactedCopy(now: Image, image: Image, rects: seq<Rect>, v: Viewport)
    requires ValidViewport(v)
  {
    && now.width == image.width && now.height == image.height
    && |now.data| == |image.data| == Offset(image.width * 4, image.height)
    && forall y: nat, x: nat :: y < image.height && x < image.width ==> RedactedAt(now, image, rects, v, y, x)
  }

  lemma PaintedIsRedacted(now: Image, image: Image, rects: seq<Rect>, v: Viewport, boxes: seq<Box>)
    requires ValidViewport(v) && boxes == BoxesOf(rects, v, image, |rects|)
    requires now.width == image.width && now.height == image.height
    requires Painted(now.data, image.data, image.width, image.height, boxes)
    ensures RedactedCopy(now, image, rects, v)
  {
    hide BoxOf, Touches, PixelOf, BoxesOf;
    forall y: nat, x: nat | y < image.height && x < image.width
      ensures RedactedAt(now, image, rects, v, y, x)
    {
      assert PaintedIn(now.data, image.data, image.width, image.height, boxes, y, x);
      BoxesAreExact(rects, v, image, y, x);
    }
  }

  /** What is written is the encoding of the painted copy, or the error that it does not fit. */
  ghost predicate Writes(z: Zlib, image: Image, rects: seq<Rect>, v: Viewport, r: Result<seq<byte>, RedactError>)
    requires ValidViewport(v)
  {
    exists now :: RedactedCopy(now, image, rects, v) && r == Written(Encode(z, now, 1))
  }

  function Written(encoded: Result<seq<byte>, PngError>): Result<seq<byte>, RedactError> {
    if encoded.Ok? then Ok(encoded.value) else Err(NotEncoded(encoded.error))
  }

  lemma OneCopy(a: Image, b: Image, image: Image, rects: seq<Rect>, v: Viewport)
    requires ValidViewport(v) && RedactedCopy(a, image, rects, v) && RedactedCopy(b, image, rects, v)
    ensures a == b
  {
    hide PixelOf, Covered;
    forall y: nat, x: nat | y < image.height && x < image.width
      ensures PixelOf(a.data, image.width, image.height, y, x) == PixelOf(b.data, image.width, image.height, y, x)
    {
      assert RedactedAt(a, image, rects, v, y, x) && RedactedAt(b, image, rects, v, y, x);
    }
    SamePixels(a.data, b.data, image.width, image.height);
  }

  /** The painted copy's filtered rows compress to what one chunk can hold. */
  ghost predicate Fits(z: Zlib, image: Image, rects: seq<Rect>, v: Viewport)
    requires ValidViewport(v)
  {
    exists now, raw :: RedactedCopy(now, image, rects, v) && Compressed(z, now, 1, raw)
  }

  /** The images have one size and differ at covered pixels only. */
  ghost predicate AgreeOffCovered(a: Image, b: Image, rects: seq<Rect>, v: Viewport)
    requires ValidViewport(v)
  {
    && a.width == b.width && a.height == b.height
    && |a.data| == |b.data| == Offset(a.width * 4, a.height)
    && forall y: nat, x: nat :: y < a.height && x < a.width ==> AgreeAt(a, b, rects, v, y, x)
  }

  ghost predicate AgreeAt(a: Image, b: Image, rects: seq<Rect>, v: Viewport, y: nat, x: nat)
    requires ValidViewport(v) && y < a.height && x < a.width
    requires |a.data| == |b.data| == Offset(a.width * 4, a.height)
  {
    Covered(rects, v, a, y, x) || PixelOf(a.data, a.width, a.height, y, x) == PixelOf(b.data, a.width, a.height, y, x)
  }

  /** Nothing of a covered pixel reaches the output: two images that differ only there give the same
      bytes. */
  lemma NothingLeaks(z: Zlib, a: Image, b: Image, rects: seq<Rect>, v: Viewport,
                     ra: Result<seq<byte>, RedactError>, rb: Result<seq<byte>, RedactError>)
    requires ValidViewport(v) && AgreeOffCovered(a, b, rects, v)
    requires Writes(z, a, rects, v, ra) && Writes(z, b, rects, v, rb)
    ensures ra == rb
  {
    hide Encode, PixelOf, Covered;
    var now :| RedactedCopy(now, a, rects, v) && ra == Written(Encode(z, now, 1));
    var other :| RedactedCopy(other, b, rects, v) && rb == Written(Encode(z, other, 1));
    forall y: nat, x: nat | y < a.height && x < a.width
      ensures PixelOf(now.data, a.width, a.height, y, x) == PixelOf(other.data, a.width, a.height, y, x)
    {
      assert AgreeAt(a, b, rects, v, y, x);
      assert RedactedAt(now, a, rects, v, y, x) && RedactedAt(other, b, rects, v, y, x);
      SameCover(rects, v, a, b, y, x);
    }
    SamePixels(now.data, other.data, a.width, a.height);
  }

  lemma SameCover(rects: seq<Rect>, v: Viewport, a: Image, b: Image, y: nat, x: nat)
    requires ValidViewport(v) && a.width == b.width && a.height == b.height
    ensures Covered(rects, v, a, y, x) == Covered(rects, v, b, y, x)
  {
    forall i | 0 <= i < |rects| ensures Touches(rects[i], v, a, y, x) == Touches(rects[i], v, b, y, x) {
    }
  }

  method RedactPngRectangles(z: Zlib, table: array<Word>, png: seq<byte>, rects: seq<Rect>, v: Viewport)
    returns (r: Result<seq<byte>, RedactError>)
    requires z.Inverse() && IsCrcTable(table)
    ensures Admit(z, png, rects, v).Err? ==> r == Err(Admit(z, png, rects, v).error)
    ensures Admit(z, png, rects, v).Ok? ==>
              if r.Ok? then
                && Decode(z, r.value).Ok?
                && RedactedCopy(Decode(z, r.value).value, Admit(z, png, rects, v).value, rects, v)
              else r == Err(NotEncoded(OutOfRange))
    ensures Admit(z, png, rects, v).Ok? ==> (r.Ok? <==> Fits(z, Admit(z, png, rects, v).value, rects, v))
    ensures Admit(z, png, rects, v).Ok? ==> Writes(z, Admit(z, png, rects, v).value, rects, v, r)
  {
    hide Decode, Encode, Covered, Compressed;
    if rects == [] {
      return Err(NoRectangles);
    }
    if !ValidViewport(v) {
      return Err(BadViewport);
    }
    var decoded := DecodePng(z, png);
    if decoded.Err? {
      return Err(NotDecoded(decoded.error));
    }
    var image := decoded.value;
    if image.width == 0 || image.height == 0 {
      return Err(BadScale);
    }
    DecodedSize(z, png);
    DataSize(image);
    var data, valid := PaintAll(image, rects, v);
    if !valid {
      return Err(BadRectangle);
    }
    var painted := Image(image.width, image.height, data);
    PaintedIsRedacted(painted, image, rects, v, BoxesOf(rects, v, image, |rects|));
    var out := EncodePng(z, table, painted, 1);
    OnlyTooLarge(z, painted, image, rects, v);
    assert out == Encode(z, painted, 1);
    if out.Err? {
      return Err(NotEncoded(out.error));
    }
    RoundTrip(z, painted, 1);
    return Ok(out.value);
  }

  /** The painted copy is encoded exactly when it fits, and nothing else is ever wrong with it. */
  lemma OnlyTooLarge(z: Zlib, painted: Image, image: Image, rects: seq<Rect>, v: Viewport)
    requires ValidViewport(v) && SizedImage(painted) && RedactedCopy(painted, image, rects, v)
    ensures if Fits(z, image, rects, v) then Encode(z, painted, 1).Ok? else Encode(z, painted, 1) == Err(OutOfRange)
  {
    hide Encode, Compressed, RedactedCopy;
    EncodeIff(z, painted, 1);
    forall now, raw | RedactedCopy(now, image, rects, v) && Compressed(z, now, 1, raw) ensures now == painted {
      OneCopy(now, painted, image, rects, v);
    }
  }

  /** Each rectangle has an area. */
  predicate AllSolid(rects: seq<Rect>) {
    forall i :: 0 <= i < |rects| ==> rects[i].width > 0.0 && rects[i].height > 0.0
  }

  /** The page has an area, and the padding is at most 128 pixels of it. */
  predicate Visible(v: Viewport) {
    v.cssWidth > 0.0 && v.cssHeight > 0.0 && v.padding >= 0.0 && v.padding <= 128.0
  }

  /** What is asked of a redaction before anything is painted, and what a refusal says: the first thing
      missing, the rectangles last. */
  lemma AdmitIff(z: Zlib, png: seq<byte>, rects: seq<Rect>, v: Viewport)
    ensures var r, image := Admit(z, png, rects, v), Decode(z, png);
      && (r == Err(NoRectangles) <==> rects == [])
      && (r == Err(BadViewport) <==> rects != [] && !Visible(v))
      && (rects != [] && Visible(v) && image.Err? ==> r == Err(NotDecoded(image.error)))
      && (r == Err(BadScale) <==> rects != [] && Visible(v) && image.Ok? && (image.value.width == 0 || image.value.height == 0))
      && (r == Err(BadRectangle) <==>
            && rects != [] && Visible(v) && image.Ok? && image.value.width > 0 && image.value.height > 0 && !AllSolid(rects))
      && (r.Ok? <==>
            && rects != [] && Visible(v) && image.Ok? && image.value.width > 0 && image.value.height > 0 && AllSolid(rects))
      && (r.Ok? ==> r.value == image.value)
  {
    hide Decode;
  }

  /** The loop over the rectangles, painting in place; stops at the first invalid one. */
  method PaintAll(image: Image, rects: seq<Rect>, v: Viewport) returns (painted: seq<byte>, valid: bool)
    requires ValidViewport(v) && |image.data| == Offset(image.width * 4, image.height)
    ensures valid <==> forall i :: 0 <= i < |rects| ==> ValidRect(rects[i])
    ensures valid ==> Painted(painted, image.data, image.width, image.height, BoxesOf(rects, v, image, |rects|))
  {
    var data := new byte[|image.data|](i requires 0 <= i < |image.data| => image.data[i]);
    assert data[..] == image.data;
    for n := 0 to |rects|
      invariant forall i :: 0 <= i < n ==> ValidRect(rects[i])
      invariant Painted(data[..], image.data, image.width, image.height, BoxesOf(rects, v, image, n))
    {
      if !ValidRect(rects[n]) {
        return data[..], false;
      }
      var b := BoxOf(rects[n], v, image);
      PaintBox(data, image.width, image.height, b, image.data, BoxesOf(rects, v, image, n));
    }
    return data[..], true;
  }
}
