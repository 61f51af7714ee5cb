/** What the unfilter loop of src/image/png.js restores, said of the bytes themselves: each restored
    byte stands in the relation that section 6 of RFC 2083 gives its row's filter type to the byte
    read, the byte to its left, the byte above it and the one to the left of that. */
module Neighbours {
  import opened Prelude
  import opened RowFilters

  function Distance(x: int, y: int): nat {
    if x < y then y - x else x - y
  }

  /** Of the three neighbours, `d` is the nearest to left + up - corner: the left one if it is one of
      the nearest, or else the upper one if it is, or else the upper left one. */
  predicate Nearest(d: byte, left: byte, up: byte, corner: byte) {
    var byLeft, byUp, byCorner := Distance(up, corner), Distance(left, corner), Distance(left + up, 2 * corner);
    || (d == left && byLeft <= byUp && byLeft <= byCorner)
    || (d == up && byUp < byLeft && byUp <= byCorner)
    || (d == corner && byCorner < byLeft && byCorner < byUp)
  }

  /** `d` is what a filter type takes off a byte with these neighbours. */
  predicate TakenOff(filter: byte, d: byte, left: byte, up: byte, corner: byte) {
    match filter
    case 0 => d == 0
    case 1 => d == left
    case 2 => d == up
    case 3 => 2 * d <= left + up <= 2 * d + 1
    case 4 => Nearest(d, left, up, corner)
    case _ => false
  }

  lemma TakenOffIff(filter: byte, d: byte, left: byte, up: byte, corner: byte)
    requires filter <= 4
    ensures TakenOff(filter, d, left, up, corner) <==> d == Predict(filter, left, up, corner)
  {
  }

  // ---- one row ------------------------------------------------------------------------------

  /** A byte of a row, and 0 to the left of the row. */
  function InRow(row: seq<byte>, x: int): byte
    requires x < |row|
  {
    if x < 0 then 0 else row[x]
  }

  /** What was taken off byte `x` of `row` to leave byte `x` of `src`. */
  function Off(row: seq<byte>, src: seq<byte>, x: nat): byte
    requires x < |row| == |src|
  {
    var now: int, was: int := row[x], src[x];
    (now - was) % 256
  }

  predicate RestoredAt(filter: byte, row: seq<byte>, src: seq<byte>, up: seq<byte>, bpp: nat, x: nat)
    requires x < |row| == |src| == |up|
  {
    TakenOff(filter, Off(row, src, x), InRow(row, x - bpp), up[x], InRow(up, x - bpp))
  }

  /** `row` is what the filter type left `src` of, under the row `up`. */
  ghost predicate Restored(filter: byte, row: seq<byte>, src: seq<byte>, up: seq<byte>, bpp: nat) {
    && |row| == |src| == |up|
    && forall x: nat :: x < |row| ==> RestoredAt(filter, row, src, up, bpp, x)
  }

  lemma RestoredAtIff(filter: byte, row: seq<byte>, src: seq<byte>, up: seq<byte>, bpp: nat, x: nat)
    requires filter <= 4 && 0 < bpp && x < |row| == |src| == |up|
    ensures RestoredAt(filter, row, src, up, bpp, x) <==> FilterRow(filter, row, up, bpp)[x] == src[x]
  {
    hide Predict, TakenOff;
    TakenOffIff(filter, Off(row, src, x), InRow(row, x - bpp), up[x], InRow(up, x - bpp));
    OffIff(row[x], src[x], PredictAt(filter, row, up, bpp, x));
  }

  lemma OffIff(now: byte, was: byte, p: byte)
    ensures (now - was) % 256 == p <==> (now - p) % 256 == was
  {
  }

  lemma RestoredIff(filter: byte, row: seq<byte>, src: seq<byte>, up: seq<byte>, bpp: nat)
    requires filter <= 4 && 0 < bpp && |row| == |src| == |up|
    ensures Restored(filter, row, src, up, bpp) <==> FilterRow(filter, row, up, bpp) == src
  {
    hide RestoredAt, PredictAt;
    forall x: nat | x < |row|
      ensures RestoredAt(filter, row, src, up, bpp, x) <==> FilterRow(filter, row, up, bpp)[x] == src[x]
    {
      RestoredAtIff(filter, row, src, up, bpp, x);
    }
  }

  /** One row is restored to exactly the bytes in that relation to it. */
  lemma RowRestored(filter: byte, row: seq<byte>, src: seq<byte>, up: seq<byte>, bpp: nat)
    requires filter <= 4 && 0 < bpp && |src| == |up|
    ensures UnfilterRow(filter, src, up, bpp, |src|) == row <==> Restored(filter, row, src, up, bpp)
  {
    hide UnfilterRow, FilterRow, Restored;
    if |row| == |src| {
      RestoredIff(filter, row, src, up, bpp);
      RowInverseBack(filter, src, up, bpp);
      RowInverse(filter, row, up, bpp, |row|);
      assert row[..|row|] == row;
    } else {
      RestoredSize(filter, row, src, up, bpp);
    }
  }

  lemma RestoredSize(filter: byte, row: seq<byte>, src: seq<byte>, up: seq<byte>, bpp: nat)
    ensures Restored(filter, row, src, up, bpp) ==> |row| == |src|
  {
  }

  // ---- all rows -----------------------------------------------------------------------------

  /** Row `y` is restored under the row before it, or under zeros; an empty row has nothing to restore. */
  ghost predicate LineRestored(line: Scanline, rows: seq<seq<byte>>, y: nat, stride: nat, bpp: nat)
    requires y < |rows|
  {
    && (line.filter <= 4 || stride == 0)
    && Restored(line.filter, rows[y], line.bytes, RowAbove(rows, y, stride), bpp)
  }

  ghost predicate LinesRestored(lines: seq<Scanline>, rows: seq<seq<byte>>, stride: nat, bpp: nat, n: nat)
    requires n <= |lines|
  {
    && |rows| == n && Even(rows, stride)
    && forall y :: 0 <= y < n ==> LineRestored(lines[y], rows, y, stride, bpp)
  }

  lemma LineIff(line: Scanline, rows: seq<seq<byte>>, y: nat, stride: nat, bpp: nat)
    requires 0 < bpp && y < |rows| && Even(rows, stride) && |line.bytes| == stride && (line.filter <= 4 || stride == 0)
    ensures LineRestored(line, rows, y, stride, bpp) <==>
              rows[y] == RowOf(line.filter, line.bytes, RowAbove(rows, y, stride), bpp)
  {
    hide UnfilterRow, RestoredAt;
    if stride > 0 {
      RowRestored(line.filter, rows[y], line.bytes, RowAbove(rows, y, stride), bpp);
    }
  }

  lemma SameAbove(rows: seq<seq<byte>>, y: nat, n: nat, stride: nat)
    requires y <= n <= |rows|
    ensures RowAbove(rows[..n], y, stride) == RowAbove(rows, y, stride)
  {
  }

  lemma RowsStep(lines: seq<Scanline>, rows: seq<seq<byte>>, stride: nat, bpp: nat, n: nat)
    requires 0 < bpp && 0 < n <= |lines| && EvenLines(lines, stride) && |rows| == n && Even(rows, stride)
    ensures UnfilterRows(lines, stride, bpp, n) == Ok(rows) <==>
              && UnfilterRows(lines, stride, bpp, n - 1) == Ok(rows[..n - 1])
              && LineRestored(lines[n - 1], rows, n - 1, stride, bpp)
  {
    hide RowOf, RowAbove, Restored;
    var line, above := lines[n - 1], rows[..n - 1];
    assert rows == above + [rows[n - 1]];
    SameAbove(rows, n - 1, n - 1, stride);
    if line.filter <= 4 || stride == 0 {
      LineIff(line, rows, n - 1, stride, bpp);
    }
  }

  lemma LinesStep(lines: seq<Scanline>, rows: seq<seq<byte>>, stride: nat, bpp: nat, n: nat)
    requires 0 < n <= |lines| && |rows| == n && Even(rows, stride)
    ensures LinesRestored(lines, rows, stride, bpp, n) <==>
              LinesRestored(lines, rows[..n - 1], stride, bpp, n - 1) && LineRestored(lines[n - 1], rows, n - 1, stride, bpp)
  {
    hide LineRestored;
    var above := rows[..n - 1];
    forall y | 0 <= y < n - 1
      ensures LineRestored(lines[y], above, y, stride, bpp) == LineRestored(lines[y], rows, y, stride, bpp)
    {
      SameLine(lines[y], rows, y, n - 1, stride, bpp);
    }
  }

  lemma SameLine(line: Scanline, rows: seq<seq<byte>>, y: nat, n: nat, stride: nat, bpp: nat)
    requires y < n <= |rows|
    ensures LineRestored(line, rows[..n], y, stride, bpp) == LineRestored(line, rows, y, stride, bpp)
  {
    hide RowAbove, Restored;
    SameAbove(rows, y, n, stride);
  }

  lemma {:induction false} RowsRestored(lines: seq<Scanline>, rows: seq<seq<byte>>, stride: nat, bpp: nat, n: nat)
    requires 0 < bpp && n <= |lines| && EvenLines(lines, stride)
    ensures UnfilterRows(lines, stride, bpp, n) == Ok(rows) <==> LinesRestored(lines, rows, stride, bpp, n)
  {
    hide LineRestored;
    if n == 0 {
      NoRows(lines, stride, bpp);
    } else if |rows| == n && Even(rows, stride) {
      hide UnfilterRows, LinesRestored;
      RowsRestored(lines, rows[..n - 1], stride, bpp, n - 1);
      RowsStep(lines, rows, stride, bpp, n);
      LinesStep(lines, rows, stride, bpp, n);
    }
  }

  // ---- the flat image -----------------------------------------------------------------------

  /** The byte in column `x` of row `y`, and 0 to the left of the image and above it. */
  function Sample(data: seq<byte>, stride: nat, y: int, x: int): byte {
    var at := stride * y + x;
    if y >= 0 && x >= 0 && 0 <= at < |data| then data[at] else 0
  }

  predicate SampleRestored(line: Scanline, data: seq<byte>, stride: nat, bpp: nat, y: nat, x: nat)
    requires x < |line.bytes|
  {
    var now: int, was: int := Sample(data, stride, y, x), line.bytes[x];
    TakenOff(line.filter, (now - was) % 256,
             Sample(data, stride, y, x - bpp), Sample(data, stride, y - 1, x), Sample(data, stride, y - 1, x - bpp))
  }

  /** Every byte of the image stands in the relation of its row's filter type to the byte read. */
  ghost predicate ImageRestored(lines: seq<Scanline>, data: seq<byte>, stride: nat, bpp: nat)
    requires EvenLines(lines, stride)
  {
    && |data| == stride * |lines|
    && forall y: nat, x: nat :: y < |lines| && x < stride ==> SampleRestored(lines[y], data, stride, bpp, y, x)
  }

  lemma SampleIs(data: seq<byte>, stride: nat, height: nat, y: nat, x: nat)
    requires |data| == stride * height == Offset(stride, height) && y < height && x < stride
    ensures Sample(data, stride, y, x) == Rows(data, stride, height)[y][x]
  {
    OffsetIsProduct(stride, y);
    RowFits(stride, y, height);
  }

  lemma SampleRow(data: seq<byte>, stride: nat, height: nat, y: nat, x: int)
    requires |data| == stride * height == Offset(stride, height) && y < height && x < stride
    ensures var rows := Rows(data, stride, height);
      && Sample(data, stride, y, x) == InRow(rows[y], x)
      && Sample(data, stride, y - 1, x) == InRow(RowAbove(rows, y, stride), x)
  {
    hide Rows, Offset;
    if x >= 0 {
      SampleIs(data, stride, height, y, x);
      if y > 0 {
        SampleIs(data, stride, height, y - 1, x);
      }
    }
  }

  lemma SampleIff(line: Scanline, data: seq<byte>, stride: nat, height: nat, bpp: nat, y: nat, x: nat)
    requires 0 < bpp && |data| == stride * height == Offset(stride, height) && y < height && x < stride == |line.bytes|
    ensures var rows := Rows(data, stride, height);
      SampleRestored(line, data, stride, bpp, y, x) <==>
        RestoredAt(line.filter, rows[y], line.bytes, RowAbove(rows, y, stride), bpp, x)
  {
    hide Rows, Offset, TakenOff, Sample, RowAbove;
    var rows := Rows(data, stride, height);
    AboveSize(rows, y, stride);
    SampleRow(data, stride, height, y, x);
    SampleRow(data, stride, height, y, x - bpp);
  }

  lemma AboveSize(rows: seq<seq<byte>>, y: nat, stride: nat)
    requires y <= |rows| && Even(rows, stride)
    ensures |RowAbove(rows, y, stride)| == stride
  {
  }

  lemma KnownFilter(line: Scanline, rows: seq<seq<byte>>, y: nat, stride: nat, bpp: nat)
    requires y < |rows| && Restored(line.filter, rows[y], line.bytes, RowAbove(rows, y, stride), bpp)
    requires |line.bytes| == stride
    ensures line.filter <= 4 || stride == 0
  {
    if stride > 0 {
      assert RestoredAt(line.filter, rows[y], line.bytes, RowAbove(rows, y, stride), bpp, 0);
    }
  }

  lemma LineSamples(line: Scanline, data: seq<byte>, stride: nat, height: nat, bpp: nat, y: nat)
    requires 0 < bpp && |data| == stride * height == Offset(stride, height) && y < height && stride == |line.bytes|
    ensures LineRestored(line, Rows(data, stride, height), y, stride, bpp) <==>
              forall x: nat :: x < stride ==> SampleRestored(line, data, stride, bpp, y, x)
  {
    hide Rows, Offset, SampleRestored, RestoredAt, RowAbove;
    var rows := Rows(data, stride, height);
    AboveSize(rows, y, stride);
    forall x: nat | x < stride
      ensures SampleRestored(line, data, stride, bpp, y, x) <==>
                RestoredAt(line.filter, rows[y], line.bytes, RowAbove(rows, y, stride), bpp, x)
    {
      SampleIff(line, data, stride, height, bpp, y, x);
    }
    if Restored(line.filter, rows[y], line.bytes, RowAbove(rows, y, stride), bpp) {
      KnownFilter(line, rows, y, stride, bpp);
    }
  }

  lemma LinesSamples(lines: seq<Scanline>, data: seq<byte>, stride: nat, bpp: nat)
    requires 0 < bpp && EvenLines(lines, stride) && |data| == stride * |lines| == Offset(stride, |lines|)
    ensures LinesRestored(lines, Rows(data, stride, |lines|), stride, bpp, |lines|) <==>
              ImageRestored(lines, data, stride, bpp)
  {
    hide Rows, Offset, SampleRestored, LineRestored;
    forall y: nat | y < |lines|
      ensures LineRestored(lines[y], Rows(data, stride, |lines|), y, stride, bpp) <==>
                forall x: nat :: x < stride ==> SampleRestored(lines[y], data, stride, bpp, y, x)
    {
      LineSamples(lines[y], data, stride, |lines|, bpp, y);
    }
  }

  lemma {:induction false} RowsOfFlat(rows: seq<seq<byte>>, stride: nat)
    requires Even(rows, stride)
    ensures |Flat(rows)| == Offset(stride, |rows|) && Rows(Flat(rows), stride, |rows|) == rows
  {
    FlatLength(rows, stride);
    if rows != [] {
      var n := |rows| - 1;
      RowsOfFlat(rows[..n], stride);
      forall y | 0 <= y < |rows| ensures Rows(Flat(rows), stride, |rows|)[y] == rows[y] {
        RowOfFlat(rows, stride, n, y);
      }
    }
  }

  lemma RowOfFlat(rows: seq<seq<byte>>, stride: nat, n: nat, y: nat)
    requires |rows| == n + 1 && Even(rows, stride) && y <= n && |Flat(rows)| == Offset(stride, n + 1)
    requires |Flat(rows[..n])| == Offset(stride, n) && Rows(Flat(rows[..n]), stride, n) == rows[..n]
    ensures RowAt(Flat(rows), stride, n + 1, y) == rows[y]
  {
    var before := Flat(rows[..n]);
    assert Flat(rows) == before + rows[n];
    if y < n {
      RowFits(stride, y, n);
      assert RowAt(before, stride, n, y) == Rows(before, stride, n)[y];
    }
  }

  /** The unfilter loop succeeds with exactly the one image whose every byte is restored. */
  lemma UnfilteredIff(lines: seq<Scanline>, data: seq<byte>, stride: nat, bpp: nat)
    requires 0 < bpp && EvenLines(lines, stride)
    ensures UnfilterImage(lines, stride, bpp) == Ok(data) <==> ImageRestored(lines, data, stride, bpp)
  {
    hide UnfilterRows, LinesRestored, Rows, Offset, SampleRestored;
    OffsetIsProduct(stride, |lines|);
    var done := UnfilterRows(lines, stride, bpp, |lines|);
    if done.Ok? {
      RowsOfFlat(done.value, stride);
    }
    if |data| == stride * |lines| {
      var rows := Rows(data, stride, |lines|);
      FlatRows(data, stride, |lines|);
      assert data[..|data|] == data;
      RowsRestored(lines, rows, stride, bpp, |lines|);
      LinesSamples(lines, data, stride, bpp);
    }
  }

  lemma {:induction false} RowsRefused(lines: seq<Scanline>, stride: nat, bpp: nat, n: nat, k: nat)
    requires 0 < bpp && n <= |lines| && EvenLines(lines, stride)
    ensures UnfilterRows(lines, stride, bpp, n) == Err(k) <==>
              k < n && 0 < stride && lines[k].filter > 4 && forall y :: 0 <= y < k ==> lines[y].filter <= 4
  {
    hide RowOf, RowAbove;
    if n > 0 {
      RowsRefused(lines, stride, bpp, n - 1, k);
      var before := UnfilterRows(lines, stride, bpp, n - 1);
      if before.Err? {
        RowsRefused(lines, stride, bpp, n - 1, before.error);
      } else {
        forall y | 0 <= y < n - 1 && 0 < stride ensures lines[y].filter <= 4 {
          RowOfPrefix(lines, stride, bpp, y, n - 1);
        }
      }
    }
  }

  /** Otherwise it stops at the first row of an unknown filter type; an image without columns is never
      refused. */
  lemma RefusedIff(lines: seq<Scanline>, stride: nat, bpp: nat, k: nat)
    requires 0 < bpp && EvenLines(lines, stride)
    ensures UnfilterImage(lines, stride, bpp) == Err(k) <==>
              k < |lines| && 0 < stride && lines[k].filter > 4 && forall y :: 0 <= y < k ==> lines[y].filter <= 4
  {
    hide UnfilterRows;
    RowsRefused(lines, stride, bpp, |lines|, k);
  }

  // ---- the stream that is read --------------------------------------------------------------

  /** The first byte of row `y` of a stream. */
  function FilterType(raw: seq<byte>, stride: nat, y: nat): byte {
    Sample(raw, stride + 1, y, 0)
  }

  /** Byte `x` of row `y` stands in the relation of the row's first byte in the stream, its filter
      type, to byte `x` of those that follow it. */
  predicate ByteRestored(raw: seq<byte>, data: seq<byte>, stride: nat, bpp: nat, y: nat, x: nat) {
    var now: int, was: int := Sample(data, stride, y, x), Sample(raw, stride + 1, y, x + 1);
    TakenOff(FilterType(raw, stride, y), (now - was) % 256,
             Sample(data, stride, y, x - bpp), Sample(data, stride, y - 1, x), Sample(data, stride, y - 1, x - bpp))
  }

  /** `data` is the image that the stream `raw` holds the filtered rows of. */
  ghost predicate RestoredFrom(raw: seq<byte>, data: seq<byte>, stride: nat, bpp: nat, height: nat) {
    && |data| == stride * height
    && forall y: nat, x: nat :: y < height && x < stride ==> ByteRestored(raw, data, stride, bpp, y, x)
  }

  lemma FilterInStream(raw: seq<byte>, stride: nat, height: nat, y: nat)
    requires (stride + 1) * height == Offset(stride + 1, height) <= |raw| && y < height
    ensures FilterType(raw, stride, y) == Scanlines(raw, stride, height)[y].filter
  {
    OffsetIsProduct(stride + 1, y);
    RowFits(stride + 1, y, height);
  }

  lemma RowInStream(raw: seq<byte>, stride: nat, height: nat, y: nat, x: nat)
    requires (stride + 1) * height == Offset(stride + 1, height) <= |raw| && y < height && x < stride
    ensures Sample(raw, stride + 1, y, x + 1) == Scanlines(raw, stride, height)[y].bytes[x]
  {
    OffsetIsProduct(stride + 1, y);
    RowFits(stride + 1, y, height);
  }

  /** The rows cut out of a stream unfilter to exactly the one image restored from it. */
  lemma StreamIff(raw: seq<byte>, data: seq<byte>, stride: nat, bpp: nat, height: nat)
    requires 0 < bpp && Offset(stride + 1, height) <= |raw|
    ensures UnfilterImage(Scanlines(raw, stride, height), stride, bpp) == Ok(data) <==>
              RestoredFrom(raw, data, stride, bpp, height)
  {
    hide UnfilterImage, Scanlines, Offset, TakenOff, Sample;
    var lines := Scanlines(raw, stride, height);
    OffsetIsProduct(stride + 1, height);
    UnfilteredIff(lines, data, stride, bpp);
    forall y: nat, x: nat | y < height && x < stride
      ensures SampleRestored(lines[y], data, stride, bpp, y, x) <==> ByteRestored(raw, data, stride, bpp, y, x)
    {
      FilterInStream(raw, stride, height, y);
      RowInStream(raw, stride, height, y, x);
    }
  }

  // ---- the stream that is written -----------------------------------------------------------

  /** `raw` holds the rows of the image, each filtered under the one filter type, and nothing else. */
  ghost predicate FilteredAs(raw: seq<byte>, data: seq<byte>, filter: byte, stride: nat, height: nat) {
    && |raw| == (stride + 1) * height
    && (forall y: nat :: y < height ==> FilterType(raw, stride, y) == filter)
    && RestoredFrom(raw, data, stride, 4, height)
  }

  lemma {:induction false} CodedOfStream(raw: seq<byte>, lines: seq<Scanline>, stride: nat, n: nat)
    requires n <= |lines| && Offset(stride + 1, n) <= |raw| && Stored(raw, lines, stride, n)
    ensures Coded(lines, n) == raw[..Offset(stride + 1, n)]
  {
    if n > 0 {
      var at := Offset(stride + 1, n - 1);
      CodedOfStream(raw, lines, stride, n - 1);
      assert StoredAt(raw, lines[n - 1], stride, at);
      assert raw[..at + 1 + stride] == raw[..at] + [raw[at]] + raw[at + 1..at + 1 + stride];
    }
  }

  lemma FilteredLine(line: Scanline, data: seq<byte>, filter: byte, stride: nat, height: nat, y: nat)
    requires filter <= 4 && |data| == Offset(stride, height) && y < height && |line.bytes| == stride
    ensures line == FilterAll(data, filter, stride, height)[y] <==>
              line.filter == filter && LineRestored(line, Rows(data, stride, height), y, stride, 4)
  {
    hide FilterAll, FilterRow, RestoredAt, RowAbove, Rows, Offset;
    var rows := Rows(data, stride, height);
    AboveSize(rows, y, stride);
    FilterAllIs(data, filter, stride, height, y);
    RestoredIff(filter, rows[y], line.bytes, RowAbove(rows, y, stride), 4);
  }

  lemma FilteredLines(lines: seq<Scanline>, data: seq<byte>, filter: byte, stride: nat, height: nat)
    requires filter <= 4 && |data| == Offset(stride, height) && |lines| == height && EvenLines(lines, stride)
    ensures lines == FilterAll(data, filter, stride, height) <==>
              && (forall y :: 0 <= y < height ==> lines[y].filter == filter)
              && LinesRestored(lines, Rows(data, stride, height), stride, 4, height)
  {
    hide FilterAll, LineRestored, Rows, Offset;
    var all := FilterAll(data, filter, stride, height);
    forall y | 0 <= y < height
      ensures lines[y] == all[y] <==>
                lines[y].filter == filter && LineRestored(lines[y], Rows(data, stride, height), y, stride, 4)
    {
      FilteredLine(lines[y], data, filter, stride, height, y);
    }
  }

  /** The filter loop writes exactly that stream. */
  lemma FilteredIff(raw: seq<byte>, data: seq<byte>, filter: byte, stride: nat, height: nat)
    requires filter <= 4 && |data| == stride * height == Offset(stride, height)
    ensures raw == Coded(FilterAll(data, filter, stride, height), height) <==> FilteredAs(raw, data, filter, stride, height)
  {
    hide FilterAll, Rows, Offset, Coded, Stored, RestoredFrom, FilterType, LinesRestored, Scanlines;
    var all := FilterAll(data, filter, stride, height);
    OffsetIsProduct(stride + 1, height);
    CodedStored(all, stride, height);
    if |raw| == (stride + 1) * height {
      var lines := Scanlines(raw, stride, height);
      forall y: nat | y < height ensures FilterType(raw, stride, y) == lines[y].filter {
        FilterInStream(raw, stride, height, y);
      }
      StreamIff(raw, data, stride, 4, height);
      UnfilteredIff(lines, data, stride, 4);
      LinesSamples(lines, data, stride, 4);
      FilteredLines(lines, data, filter, stride, height);
      CodedOfStream(raw, lines, stride, height);
      assert raw[..|raw|] == raw;
      if raw == Coded(all, height) {
        StoredUnique(raw, all, stride);
      }
    }
  }
}
