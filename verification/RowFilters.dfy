/** Row filters of section 6 of RFC 2083, as src/image/png.js applies and undoes them.
    An image is its rows; the filtered stream has one filter-type byte in front of each row. */
module RowFilters {
  import opened Prelude

  function Abs(x: int): nat {
    if x < 0 then -x else x
  }

  /** The neighbour nearest to a + b - c; ties go to `a`, then to `b`. */
  function Paeth(a: byte, b: byte, c: byte): (r: byte)
    ensures r == a || r == b || r == c
    ensures var p := a + b - c;
      && Abs(p - r) <= Abs(p - a) && Abs(p - r) <= Abs(p - b) && Abs(p - r) <= Abs(p - c)
      && (r != a ==> Abs(p - r) < Abs(p - a))
      && (r != a && r != b ==> Abs(p - r) < Abs(p - b))
  {
    var p := a + b - c;
    var pa, pb, pc := Abs(p - a), Abs(p - b), Abs(p - c);
    if pa <= pb && pa <= pc then a else if pb <= pc then b else c
  }

  /** The prediction from the left, upper and upper-left neighbours. */
  function Predict(filter: byte, a: byte, b: byte, c: byte): byte
    requires filter <= 4
  {
    match filter
    case 0 => 0
    case 1 => a
    case 2 => b
    case 3 => (a + b) / 2
    case _ => Paeth(a, b, c)
  }

  /** The prediction for byte `x` of a row whose first `x` bytes are known; 0 left of the row. */
  function PredictAt(filter: byte, row: seq<byte>, up: seq<byte>, bpp: nat, x: nat): byte
    requires filter <= 4 && 0 < bpp && x <= |row| && x < |up|
  {
    Predict(filter, if x >= bpp then row[x - bpp] else 0, up[x], if x >= bpp then up[x - bpp] else 0)
  }

  function ZeroRow(stride: nat): (z: seq<byte>)
    ensures |z| == stride
  {
    seq(stride, _ => 0)
  }

  datatype Scanline = Scanline(filter: byte, bytes: seq<byte>)

  ghost predicate Even<T>(rows: seq<seq<T>>, stride: nat) {
    forall y :: 0 <= y < |rows| ==> |rows[y]| == stride
  }

  ghost predicate EvenLines(lines: seq<Scanline>, stride: nat) {
    forall y :: 0 <= y < |lines| ==> |lines[y].bytes| == stride
  }

  // ---- applying the filters -----------------------------------------------------------------

  function FilterRow(filter: byte, row: seq<byte>, up: seq<byte>, bpp: nat): (out: seq<byte>)
    requires filter <= 4 && 0 < bpp && |row| == |up|
    ensures |out| == |row|
  {
    seq(|row|, x requires 0 <= x < |row| => (row[x] - PredictAt(filter, row, up, bpp, x)) % 256)
  }

  function RowAbove(rows: seq<seq<byte>>, y: nat, stride: nat): seq<byte>
    requires y <= |rows|
  {
    if y == 0 then ZeroRow(stride) else rows[y - 1]
  }

  /** Each row under its own filter. */
  function FilterRows(rows: seq<seq<byte>>, filters: seq<byte>, stride: nat, bpp: nat): (lines: seq<Scanline>)
    requires 0 < bpp && |rows| == |filters| && Even(rows, stride)
    requires forall y :: 0 <= y < |filters| ==> filters[y] <= 4
    ensures |lines| == |rows| && EvenLines(lines, stride)
  {
    seq(|rows|, y requires 0 <= y < |rows| =>
      Scanline(filters[y], FilterRow(filters[y], rows[y], RowAbove(rows, y, stride), bpp)))
  }

  // ---- undoing them -------------------------------------------------------------------------

  /** The first `n` bytes of a row, from its filtered bytes. */
  function UnfilterRow(filter: byte, src: seq<byte>, up: seq<byte>, bpp: nat, n: nat): (row: seq<byte>)
    requires filter <= 4 && 0 < bpp && n <= |src| == |up|
    ensures |row| == n
  {
    if n == 0 then []
    else
      var row := UnfilterRow(filter, src, up, bpp, n - 1);
      row + [(src[n - 1] + PredictAt(filter, row, up, bpp, n - 1)) % 256]
  }

  function RowOf(filter: byte, src: seq<byte>, up: seq<byte>, bpp: nat): (row: seq<byte>)
    requires 0 < bpp && |src| == |up| && (filter <= 4 || |src| == 0)
    ensures |row| == |src|
  {
    if |src| == 0 then [] else UnfilterRow(filter, src, up, bpp, |src|)
  }

  /** The first `n` rows, or the number of the first row that is not empty and has an unknown filter. */
  function UnfilterRows(lines: seq<Scanline>, stride: nat, bpp: nat, n: nat): (r: Result<seq<seq<byte>>, nat>)
    requires 0 < bpp && n <= |lines| && EvenLines(lines, stride)
    ensures r.Ok? ==> |r.value| == n && Even(r.value, stride)
  {
    if n == 0 then Ok([])
    else
      var above := UnfilterRows(lines, stride, bpp, n - 1);
      if above.Err? then above
      else if lines[n - 1].filter > 4 && stride > 0 then Err(n - 1)
      else
        Ok(above.value + [RowOf(lines[n - 1].filter, lines[n - 1].bytes, RowAbove(above.value, n - 1, stride), bpp)])
  }

  // ---- flat buffers -------------------------------------------------------------------------

  /** Where row `y` of `width` bytes starts. */
  function Offset(width: nat, y: nat): nat {
    if y == 0 then 0 else Offset(width, y - 1) + width
  }

  lemma {:induction false} OffsetIsProduct(width: nat, y: nat)
    ensures Offset(width, y) == width * y
  {
    if y > 0 {
      OffsetIsProduct(width, y - 1);
    }
  }

  lemma {:induction false} RowFits(width: nat, y: nat, height: nat)
    requires y < height
    ensures Offset(width, y) + width <= Offset(width, height)
  {
    if y < height - 1 {
      RowFits(width, y, height - 1);
    }
  }

  function Rows<T>(data: seq<T>, width: nat, height: nat): (rows: seq<seq<T>>)
    requires Offset(width, height) <= |data|
    ensures |rows| == height && Even(rows, width)
  {
    seq(height, y requires 0 <= y < height => RowAt(data, width, height, y))
  }

  function RowAt<T>(data: seq<T>, width: nat, height: nat, y: nat): (row: seq<T>)
    requires y < height && Offset(width, height) <= |data|
    ensures |row| == width
  {
    RowFits(width, y, height);
    data[Offset(width, y)..Offset(width, y) + width]
  }

  /** The row whose filter byte is at `at`. */
  function LineAt(raw: seq<byte>, stride: nat, at: nat): (line: Scanline)
    requires at + 1 + stride <= |raw|
    ensures |line.bytes| == stride
  {
    Scanline(raw[at], raw[at + 1..at + 1 + stride])
  }

  function Scanlines(raw: seq<byte>, stride: nat, height: nat): (lines: seq<Scanline>)
    requires Offset(stride + 1, height) <= |raw|
    ensures |lines| == height && EvenLines(lines, stride) && Stored(raw, lines, stride, height)
  {
    seq(height, y requires 0 <= y < height => Line(raw, stride, height, y))
  }

  function Line(raw: seq<byte>, stride: nat, height: nat, y: nat): (line: Scanline)
    requires y < height && Offset(stride + 1, height) <= |raw|
    ensures StoredAt(raw, line, stride, Offset(stride + 1, y))
  {
    RowFits(stride + 1, y, height);
    LineAt(raw, stride, Offset(stride + 1, y))
  }

  ghost predicate StoredAt(raw: seq<byte>, line: Scanline, stride: nat, at: nat) {
    at + 1 + stride <= |raw| && line == LineAt(raw, stride, at)
  }

  /** The first `n` of `lines` are the first rows of the stream. */
  ghost predicate Stored(raw: seq<byte>, lines: seq<Scanline>, stride: nat, n: nat)
    requires n <= |lines|
  {
    forall y :: 0 <= y < n ==> StoredAt(raw, lines[y], stride, Offset(stride + 1, y))
  }

  function Flat<T>(rows: seq<seq<T>>): seq<T> {
    if rows == [] then [] else Flat(rows[..|rows| - 1]) + rows[|rows| - 1]
  }

  lemma {:induction false} FlatLength<T>(rows: seq<seq<T>>, width: nat)
    requires Even(rows, width)
    ensures |Flat(rows)| == Offset(width, |rows|)
  {
    if rows != [] {
      FlatLength(rows[..|rows| - 1], width);
    }
  }

  lemma {:induction false} FlatRows<T>(data: seq<T>, width: nat, height: nat)
    requires Offset(width, height) <= |data|
    ensures Flat(Rows(data, width, height)) == data[..Offset(width, height)]
  {
    if height > 0 {
      FlatRows(data, width, height - 1);
      assert Rows(data, width, height)[..height - 1] == Rows(data, width, height - 1);
    }
  }

  lemma StoredUnique(raw: seq<byte>, lines: seq<Scanline>, stride: nat)
    requires Offset(stride + 1, |lines|) <= |raw| && Stored(raw, lines, stride, |lines|)
    ensures Scanlines(raw, stride, |lines|) == lines
  {
  }

  lemma StoredMore(done: seq<byte>, raw: seq<byte>, lines: seq<Scanline>, stride: nat, n: nat)
    requires n < |lines| && Stored(done, lines, stride, n) && |done| == Offset(stride + 1, n)
    requires raw == done + [lines[n].filter] + lines[n].bytes && |lines[n].bytes| == stride
    ensures Stored(raw, lines, stride, n + 1)
  {
  }

  /** The stream of the first `n` rows. */
  function Coded(lines: seq<Scanline>, n: nat): seq<byte>
    requires n <= |lines|
  {
    if n == 0 then [] else Coded(lines, n - 1) + [lines[n - 1].filter] + lines[n - 1].bytes
  }

  /** A coded stream parses back into its rows. */
  lemma NothingStored(lines: seq<Scanline>, stride: nat)
    ensures Stored([], lines, stride, 0)
  {
  }

  lemma {:induction false} CodedStored(lines: seq<Scanline>, stride: nat, n: nat)
    requires EvenLines(lines, stride) && n <= |lines|
    ensures |Coded(lines, n)| == Offset(stride + 1, n) && Stored(Coded(lines, n), lines, stride, n)
  {
    hide Stored;
    if n == 0 {
      NothingStored(lines, stride);
    } else {
      CodedStored(lines, stride, n - 1);
      StoredMore(Coded(lines, n - 1), Coded(lines, n), lines, stride, n - 1);
    }
  }

  /** Every row of a flat image under the same filter. */
  function FilterAll(data: seq<byte>, filter: byte, stride: nat, height: nat): (lines: seq<Scanline>)
    requires filter <= 4 && Offset(stride, height) <= |data|
    ensures |lines| == height && EvenLines(lines, stride)
  {
    FilterRows(Rows(data, stride, height), seq(height, _ => filter), stride, 4)
  }

  function UpIn(data: seq<byte>, stride: nat, y: nat, inRow: nat): (up: seq<byte>)
    requires y > 0 ==> stride <= inRow <= |data|
    ensures |up| == stride
  {
    if y == 0 then ZeroRow(stride) else data[inRow - stride..inRow]
  }

  lemma FilterRowsAt(rows: seq<seq<byte>>, filters: seq<byte>, stride: nat, bpp: nat, y: nat)
    requires 0 < bpp && |rows| == |filters| && Even(rows, stride) && y < |rows|
    requires forall k :: 0 <= k < |filters| ==> filters[k] <= 4
    ensures FilterRows(rows, filters, stride, bpp)[y]
              == Scanline(filters[y], FilterRow(filters[y], rows[y], RowAbove(rows, y, stride), bpp))
  {
    hide FilterRow, RowAbove;
  }

  lemma FilterAllAt(data: seq<byte>, filter: byte, stride: nat, height: nat, y: nat, inRow: nat)
    requires filter <= 4 && Offset(stride, height) <= |data| && y < height && inRow == Offset(stride, y)
    ensures inRow + stride <= |data| && (y > 0 ==> stride <= inRow)
    ensures FilterAll(data, filter, stride, height)[y]
              == Scanline(filter, FilterRow(filter, data[inRow..inRow + stride], UpIn(data, stride, y, inRow), 4))
  {
    hide *;
    RowFits(stride, y, height);
    RowBefore(stride, y);
    RowIs(data, stride, height, y);
    AboveIs(data, stride, height, y, inRow);
    FilterAllIs(data, filter, stride, height, y);
  }

  lemma FilterAllIs(data: seq<byte>, filter: byte, stride: nat, height: nat, y: nat)
    requires filter <= 4 && Offset(stride, height) <= |data| && y < height
    ensures var rows := Rows(data, stride, height);
      FilterAll(data, filter, stride, height)[y] == Scanline(filter, FilterRow(filter, rows[y], RowAbove(rows, y, stride), 4))
  {
    hide Rows, Even, FilterRow, FilterRows, RowAbove, EvenLines;
    FilterRowsAt(Rows(data, stride, height), seq(height, _ => filter), stride, 4, y);
  }

  lemma AboveIs(data: seq<byte>, stride: nat, height: nat, y: nat, inRow: nat)
    requires Offset(stride, height) <= |data| && y < height && inRow == Offset(stride, y)
    requires inRow + stride <= |data| && (y > 0 ==> stride <= inRow)
    ensures RowAbove(Rows(data, stride, height), y, stride) == UpIn(data, stride, y, inRow)
  {
    RowBefore(stride, y);
    if y > 0 {
      RowIs(data, stride, height, y - 1);
    }
    hide Rows, Offset, ZeroRow;
  }

  lemma RowBefore(stride: nat, y: nat)
    ensures y > 0 ==> Offset(stride, y) == Offset(stride, y - 1) + stride
  {
  }

  lemma RowIs(data: seq<byte>, stride: nat, height: nat, y: nat)
    requires Offset(stride, height) <= |data| && y < height && Offset(stride, y) + stride <= |data|
    ensures Rows(data, stride, height)[y] == data[Offset(stride, y)..Offset(stride, y) + stride]
  {
  }

  /** The filter loop of the encoder, into one flat buffer. */
  method Filter(data: seq<byte>, filter: byte, stride: nat, height: nat) returns (raw: array<byte>)
    requires filter <= 2 && Offset(stride, height) <= |data|
    ensures fresh(raw) && raw[..] == Coded(FilterAll(data, filter, stride, height), height)
  {
    hide FilterRow, UpIn, FilterAll;
    raw := new byte[Offset(stride + 1, height)];
    ghost var lines := FilterAll(data, filter, stride, height);
    var outRow: nat, inRow: nat := 0, 0;
    for y := 0 to height
      invariant outRow == Offset(stride + 1, y) <= raw.Length && inRow == Offset(stride, y)
      invariant raw[..outRow] == Coded(lines, y)
    {
      assert outRow + 1 + stride <= raw.Length by { RowFits(stride + 1, y, height); }
      FilterAllAt(data, filter, stride, height, y, inRow);
      FilterNext(filter, data, inRow, raw, outRow, stride, y, lines[y]);
      outRow, inRow := outRow + 1 + stride, inRow + stride;
    }
    assert raw[..outRow] == raw[..];
  }

  /** One turn of the encoder's row loop. */
  method FilterNext(filter: byte, data: seq<byte>, inRow: nat, raw: array<byte>, outRow: nat, stride: nat, y: nat,
                    ghost line: Scanline)
    requires filter <= 2 && inRow + stride <= |data| && (y > 0 ==> stride <= inRow) && outRow + 1 + stride <= raw.Length
    requires line == Scanline(filter, FilterRow(filter, data[inRow..inRow + stride], UpIn(data, stride, y, inRow), 4))
    modifies raw
    ensures raw[..outRow + 1 + stride] == old(raw[..outRow]) + [line.filter] + line.bytes
  {
    hide Offset, FilterRow;
    ghost var row, up := data[inRow..inRow + stride], UpIn(data, stride, y, inRow);
    raw[outRow] := filter;
    for x := 0 to stride
      invariant raw[..outRow] == old(raw[..outRow]) && raw[outRow] == filter
      invariant forall i :: 0 <= i < x ==> raw[outRow + 1 + i] == FilterRow(filter, row, up, 4)[i]
    {
      var value := FilterByte(filter, data, inRow, stride, y, x);
      raw[outRow + 1 + x] := value;
    }
    assert raw[outRow + 1..outRow + 1 + stride] == FilterRow(filter, row, up, 4);
    assert raw[..outRow + 1 + stride] == raw[..outRow] + [raw[outRow]] + raw[outRow + 1..outRow + 1 + stride];
  }

  /** The encoder's filter switch: none, left or up. */
  method FilterByte(filter: byte, data: seq<byte>, inRow: nat, stride: nat, y: nat, x: nat) returns (value: byte)
    requires filter <= 2 && inRow + stride <= |data| && (y > 0 ==> stride <= inRow) && x < stride
    ensures value == FilterRow(filter, data[inRow..inRow + stride], UpIn(data, stride, y, inRow), 4)[x]
  {
    hide Paeth, Offset;
    var prediction: byte := 0;
    if filter == 1 {
      prediction := if x >= 4 then data[inRow + x - 4] else 0;
    } else if filter == 2 {
      prediction := if y > 0 then data[inRow - stride + x] else 0;
    }
    value := (data[inRow + x] - prediction) % 256;
  }

  /** The unfilter loop of the decoder, in one flat buffer. */
  method Unfilter(raw: seq<byte>, stride: nat, bpp: nat, height: nat, ghost scanlines: seq<Scanline>)
    returns (r: Result<seq<byte>, nat>)
    requires 0 < bpp && |scanlines| == height && EvenLines(scanlines, stride) && Stored(raw, scanlines, stride, height)
    ensures r == UnfilterImage(scanlines, stride, bpp)
  {
    var lines := new byte[Offset(stride, height)];
    var src: nat, dst: nat := 0, 0;
    ghost var rows: seq<seq<byte>> := [];
    for y := 0 to height
      invariant src == Offset(stride + 1, y) && dst == Offset(stride, y) <= lines.Length
      invariant UnfilterRows(scanlines, stride, bpp, y) == Ok(rows) && InBuffer(lines[..dst], rows, y, stride)
    {
      assert StoredAt(raw, scanlines[y], stride, src);
      assert dst + stride <= lines.Length by { RowFits(stride, y, height); }
      var known; ghost var row;
      known, row := UnfilterNext(raw, lines, scanlines, stride, bpp, y, src, dst, rows);
      if !known {
        return Err(y);
      }
      rows := rows + [row];
      src, dst := src + stride + 1, dst + stride;
    }
    assert lines[..dst] == lines[..];
    return Ok(lines[..]);
  }

  function UnfilterImage(lines: seq<Scanline>, stride: nat, bpp: nat): Result<seq<byte>, nat>
    requires 0 < bpp && EvenLines(lines, stride)
  {
    var rows := UnfilterRows(lines, stride, bpp, |lines|);
    if rows.Err? then Err(rows.error) else Ok(Flat(rows.value))
  }

  /** The finished rows fill the buffer, the last of them at its end. */
  ghost predicate InBuffer(done: seq<byte>, rows: seq<seq<byte>>, y: nat, stride: nat) {
    && |rows| == y && done == Flat(rows)
    && (y > 0 ==> |done| >= stride && done[|done| - stride..] == rows[y - 1])
  }

  /** One turn of the row loop. */
  lemma AboveInBuffer(done: seq<byte>, rows: seq<seq<byte>>, y: nat, stride: nat)
    requires InBuffer(done, rows, y, stride)
    ensures |rows| == y && |RowAbove(rows, y, stride)| == stride
    ensures if y == 0 then RowAbove(rows, y, stride) == ZeroRow(stride)
      else |done| >= stride && RowAbove(rows, y, stride) == done[|done| - stride..]
  {
    hide Flat, ZeroRow;
  }

  lemma MoreInBuffer(done: seq<byte>, more: seq<byte>, rows: seq<seq<byte>>, row: seq<byte>, y: nat, stride: nat)
    requires InBuffer(done, rows, y, stride) && more == done + row && |row| == stride
    ensures InBuffer(more, rows + [row], y + 1, stride)
  {
    FlatMore(rows, row);
    hide Flat;
    assert more[|more| - stride..] == row;
  }

  method UnfilterNext(raw: seq<byte>, lines: array<byte>, ghost scanlines: seq<Scanline>, stride: nat, bpp: nat,
                      y: nat, src: nat, dst: nat, ghost rows: seq<seq<byte>>)
    returns (known: bool, ghost row: seq<byte>)
    requires 0 < bpp && dst + stride <= lines.Length
    requires y < |scanlines| && EvenLines(scanlines, stride) && StoredAt(raw, scanlines[y], stride, src)
    requires UnfilterRows(scanlines, stride, bpp, y) == Ok(rows) && InBuffer(lines[..dst], rows, y, stride)
    modifies lines
    ensures known ==> UnfilterRows(scanlines, stride, bpp, y + 1) == Ok(rows + [row])
    ensures known ==> InBuffer(lines[..dst + stride], rows + [row], y + 1, stride)
    ensures !known ==> UnfilterImage(scanlines, stride, bpp) == Err(y)
  {
    hide Flat, RowOf, UnfilterRow, Offset, ZeroRow, InBuffer, RowAbove;
    AboveInBuffer(lines[..dst], rows, y, stride);
    ErrorStays(scanlines, stride, bpp, y + 1, |scanlines|);
    var filter := raw[src];
    known := filter <= 4 || stride == 0;
    row := [];
    if known {
      ghost var done := lines[..dst];
      assert y > 0 ==> lines[dst - stride..dst] == done[dst - stride..];
      row := UnfilterRowInPlace(filter, raw, src + 1, lines, dst, stride, bpp, y == 0, RowAbove(rows, y, stride));
      MoreInBuffer(done, lines[..dst + stride], rows, row, y, stride);
    }
  }

  lemma FlatMore<T>(rows: seq<seq<T>>, row: seq<T>)
    ensures Flat(rows + [row]) == Flat(rows) + row
  {
  }

  lemma {:induction false} ErrorStays(lines: seq<Scanline>, stride: nat, bpp: nat, m: nat, n: nat)
    requires 0 < bpp && m <= n <= |lines| && EvenLines(lines, stride)
    ensures UnfilterRows(lines, stride, bpp, m).Err? ==>
              UnfilterRows(lines, stride, bpp, n) == UnfilterRows(lines, stride, bpp, m)
    decreases n
  {
    if m < n {
      ErrorStays(lines, stride, bpp, m, n - 1);
    }
  }

  lemma UnfilterStart(filter: byte, src: seq<byte>, up: seq<byte>, bpp: nat)
    requires filter <= 4 && 0 < bpp && |src| == |up|
    ensures UnfilterRow(filter, src, up, bpp, 0) == []
  {
  }

  lemma UnfilterStep(filter: byte, src: seq<byte>, up: seq<byte>, bpp: nat, n: nat)
    requires filter <= 4 && 0 < bpp && n < |src| == |up|
    ensures var row := UnfilterRow(filter, src, up, bpp, n);
      UnfilterRow(filter, src, up, bpp, n + 1) == row + [(src[n] + PredictAt(filter, row, up, bpp, n)) % 256]
  {
    hide PredictAt;
  }

  /** The column loop: fills one row of `lines` from the row above it in the same buffer. */
  method UnfilterRowInPlace(filter: byte, raw: seq<byte>, src: nat, lines: array<byte>, dst: nat,
                            stride: nat, bpp: nat, first: bool, ghost up: seq<byte>)
    returns (ghost row: seq<byte>)
    requires 0 < bpp && src + stride <= |raw| && dst + stride <= lines.Length && (filter <= 4 || stride == 0)
    requires |up| == stride
    requires if first then up == ZeroRow(stride) else dst >= stride && up == lines[dst - stride..dst]
    modifies lines
    ensures row == RowOf(filter, raw[src..src + stride], up, bpp) == lines[dst..dst + stride]
    ensures lines[..dst + stride] == old(lines[..dst]) + row
  {
    hide PredictAt, ZeroRow, UnfilterRow;
    ghost var bytes := raw[src..src + stride];
    if stride > 0 {
      UnfilterStart(filter, bytes, up, bpp);
    }
    for x := 0 to stride
      invariant lines[..dst] == old(lines[..dst])
      invariant stride > 0 ==> lines[dst..dst + x] == UnfilterRow(filter, bytes, up, bpp, x)
    {
      ghost var before := lines[dst..dst + x];
      assert !first ==> lines[dst - stride..dst] == lines[..dst][dst - stride..] == up;
      var value := UnfilterByte(filter, raw[src + x], lines, dst, stride, bpp, first, x, before, up);
      lines[dst + x] := value;
      assert lines[dst..dst + x + 1] == before + [value];
      UnfilterStep(filter, bytes, up, bpp, x);
    }
    row := lines[dst..dst + stride];
    ghost var done := lines[..dst + stride];
    assert done[..dst] == lines[..dst] && done[dst..] == row;
  }

  /** One turn of the column loop: the neighbours of byte `x`, where they are in the buffer. */
  method UnfilterByte(filter: byte, rawByte: byte, lines: array<byte>, dst: nat, stride: nat, bpp: nat, first: bool, x: nat,
                      ghost before: seq<byte>, ghost up: seq<byte>)
    returns (value: byte)
    requires filter <= 4 && 0 < bpp && x < stride == |up| && dst + stride <= lines.Length
    requires before == lines[dst..dst + x]
    requires if first then up == ZeroRow(stride) else dst >= stride && up == lines[dst - stride..dst]
    ensures value == (rawByte + PredictAt(filter, before, up, bpp, x)) % 256
  {
    hide Predict;
    var a := if x >= bpp then lines[dst + x - bpp] else 0;
    var b := if first then 0 else lines[dst - stride + x];
    var c := if first || x < bpp then 0 else lines[dst - stride + x - bpp];
    value := ApplyFilter(filter, rawByte, a, b, c);
  }

  /** The filter switch. */
  method ApplyFilter(filter: byte, rawByte: byte, a: byte, b: byte, c: byte) returns (value: byte)
    requires filter <= 4
    ensures value == (rawByte + Predict(filter, a, b, c)) % 256
  {
    match filter {
      case 0 => value := rawByte;
      case 1 => value := (rawByte + a) % 256;
      case 2 => value := (rawByte + b) % 256;
      case 3 => value := (rawByte + (a + b) / 2) % 256;
      case _ => value := (rawByte + Paeth(a, b, c)) % 256;
    }
  }

  // ---- each inverts the other ---------------------------------------------------------------

  lemma Undo(x: byte, p: byte)
    ensures ((x - p) % 256 + p) % 256 == x && ((x + p) % 256 - p) % 256 == x
  {
  }

  lemma {:induction false} RowInverse(filter: byte, row: seq<byte>, up: seq<byte>, bpp: nat, n: nat)
    requires filter <= 4 && 0 < bpp && n <= |row| == |up|
    ensures UnfilterRow(filter, FilterRow(filter, row, up, bpp), up, bpp, n) == row[..n]
  {
    if n > 0 {
      RowInverse(filter, row, up, bpp, n - 1);
      assert PredictAt(filter, row[..n - 1], up, bpp, n - 1) == PredictAt(filter, row, up, bpp, n - 1);
      Undo(row[n - 1], PredictAt(filter, row, up, bpp, n - 1));
    }
  }

  lemma {:induction false} UnfilterRowAt(filter: byte, src: seq<byte>, up: seq<byte>, bpp: nat, n: nat, x: nat)
    requires filter <= 4 && 0 < bpp && x < n <= |src| == |up|
    ensures var row := UnfilterRow(filter, src, up, bpp, n);
      row[x] == (src[x] + PredictAt(filter, row, up, bpp, x)) % 256
  {
    hide Predict;
    if x < n - 1 {
      UnfilterRowAt(filter, src, up, bpp, n - 1, x);
    }
  }

  lemma RowInverseBack(filter: byte, src: seq<byte>, up: seq<byte>, bpp: nat)
    requires filter <= 4 && 0 < bpp && |src| == |up|
    ensures FilterRow(filter, UnfilterRow(filter, src, up, bpp, |src|), up, bpp) == src
  {
    hide UnfilterRow, PredictAt;
    var row := UnfilterRow(filter, src, up, bpp, |src|);
    forall x | 0 <= x < |src| ensures FilterRow(filter, row, up, bpp)[x] == src[x] {
      UnfilterRowAt(filter, src, up, bpp, |src|, x);
      Undo(src[x], PredictAt(filter, row, up, bpp, x));
    }
  }

  /** Unfiltering inverts filtering, for any filter per row and any number of bytes per pixel. */
  lemma {:induction false} UnfilterInvertsFilter(rows: seq<seq<byte>>, filters: seq<byte>, stride: nat, bpp: nat, n: nat)
    requires 0 < bpp && |rows| == |filters| && Even(rows, stride) && n <= |rows|
    requires forall y :: 0 <= y < |filters| ==> filters[y] <= 4
    ensures UnfilterRows(FilterRows(rows, filters, stride, bpp), stride, bpp, n) == Ok(rows[..n])
  {
    hide UnfilterRows, FilterRows, RowOf;
    var lines := FilterRows(rows, filters, stride, bpp);
    if n == 0 {
      NoRows(lines, stride, bpp);
    } else {
      var y := n - 1;
      UnfilterInvertsFilter(rows, filters, stride, bpp, y);
      FilteredRow(rows, filters, stride, bpp, y);
      UnfilterLast(lines, stride, bpp, n, rows[..y]);
      assert rows[..n] == rows[..y] + [rows[y]];
    }
  }

  lemma NoRows(lines: seq<Scanline>, stride: nat, bpp: nat)
    requires 0 < bpp && EvenLines(lines, stride)
    ensures UnfilterRows(lines, stride, bpp, 0) == Ok([])
  {
  }

  lemma FilteredRow(rows: seq<seq<byte>>, filters: seq<byte>, stride: nat, bpp: nat, y: nat)
    requires 0 < bpp && |rows| == |filters| && Even(rows, stride) && y < |rows|
    requires forall i :: 0 <= i < |filters| ==> filters[i] <= 4
    ensures var line := FilterRows(rows, filters, stride, bpp)[y];
      line.filter <= 4 && RowOf(line.filter, line.bytes, RowAbove(rows[..y], y, stride), bpp) == rows[y]
  {
    var up := RowAbove(rows, y, stride);
    RowInverse(filters[y], rows[y], up, bpp, stride);
    assert rows[y][..stride] == rows[y];
    assert RowAbove(rows[..y], y, stride) == up;
  }

  /** The last of `n` rows, given the rows above it. */
  lemma UnfilterLast(lines: seq<Scanline>, stride: nat, bpp: nat, n: nat, above: seq<seq<byte>>)
    requires 0 < bpp && 0 < n <= |lines| && EvenLines(lines, stride)
    requires UnfilterRows(lines, stride, bpp, n - 1) == Ok(above) && (lines[n - 1].filter <= 4 || stride == 0)
    ensures UnfilterRows(lines, stride, bpp, n)
              == Ok(above + [RowOf(lines[n - 1].filter, lines[n - 1].bytes, RowAbove(above, n - 1, stride), bpp)])
  {
  }

  /** And nothing else unfilters to the same rows: filtering inverts unfiltering. */
  lemma {:induction false} FilterInvertsUnfilter(lines: seq<Scanline>, stride: nat, bpp: nat, y: nat)
    requires 0 < bpp && 0 < stride && y < |lines| && EvenLines(lines, stride)
    requires UnfilterRows(lines, stride, bpp, |lines|).Ok?
    ensures var rows := UnfilterRows(lines, stride, bpp, |lines|).value;
      && lines[y].filter <= 4
      && lines[y].bytes == FilterRow(lines[y].filter, rows[y], RowAbove(rows, y, stride), bpp)
  {
    RowOfPrefix(lines, stride, bpp, y, |lines|);
    var above := UnfilterRows(lines, stride, bpp, y);
    var up := RowAbove(above.value, y, stride);
    RowInverseBack(lines[y].filter, lines[y].bytes, up, bpp);
  }

  /** Row `y` of the whole result is decided by the rows above it. */
  lemma {:induction false} RowOfPrefix(lines: seq<Scanline>, stride: nat, bpp: nat, y: nat, n: nat)
    requires 0 < bpp && 0 < stride && y < n <= |lines| && EvenLines(lines, stride)
    requires UnfilterRows(lines, stride, bpp, n).Ok?
    ensures lines[y].filter <= 4 && UnfilterRows(lines, stride, bpp, y).Ok?
    ensures var rows, above := UnfilterRows(lines, stride, bpp, n).value, UnfilterRows(lines, stride, bpp, y).value;
      && RowAbove(rows, y, stride) == RowAbove(above, y, stride)
      && rows[y] == RowOf(lines[y].filter, lines[y].bytes, RowAbove(above, y, stride), bpp)
    decreases n
  {
    if y < n - 1 {
      RowOfPrefix(lines, stride, bpp, y, n - 1);
    }
  }
}
