/** The PNG codec of src/image/png.js: chunks (section 3.2 of RFC 2083), row filters and colour types.
    Deflate is a parameter; the round trip needs only that inflate undoes it. */
module Png {
  import opened Prelude
  import opened Crc
  import opened RowFilters

  datatype Zlib = Zlib(deflate: seq<byte> -> seq<byte>, inflate: seq<byte> -> Option<seq<byte>>) {
    ghost predicate Inverse() {
      forall s: seq<byte> :: inflate(deflate(s)) == Some(s)
    }
  }

  /** An 8-bit RGBA image, four bytes a pixel, row by row. */
  datatype Image = Image(width: nat, height: nat, data: seq<byte>)

  datatype PngError =
    | WrongLength | FilterNotImplemented | OutOfRange
    | BadSignature | HeaderTruncated | UnsupportedDepth | Interlaced | NoHeader | NoData
    | UnsupportedColour | InflateFailed | TooShort | UnknownFilter(row: nat) | MissingPalette

  const SIGNATURE: seq<byte> := [0x89, 0x50, 0x4e, 0x47, 0x0d, 0x0a, 0x1a, 0x0a]

  datatype ChunkKind = IHDR | PLTE | TRNS | IDAT | IEND | Other

  function Name(kind: ChunkKind): (name: seq<byte>)
    ensures |name| == 4 && forall i :: 0 <= i < 4 ==> name[i] < 128
  {
    match kind
    case IHDR => [73, 72, 68, 82]
    case PLTE => [80, 76, 84, 69]
    case TRNS => [116, 82, 78, 83]
    case IDAT => [73, 68, 65, 84]
    case IEND => [73, 69, 78, 68]
    case Other => [0, 0, 0, 0]
  }

  function KindOf(name: seq<byte>): ChunkKind {
    if name == Name(IHDR) then IHDR
    else if name == Name(PLTE) then PLTE
    else if name == Name(TRNS) then TRNS
    else if name == Name(IDAT) then IDAT
    else if name == Name(IEND) then IEND
    else Other
  }

  // ---- numbers and chunks -------------------------------------------------------------------

  function U32(n: u32): (bytes: seq<byte>)
    ensures |bytes| == 4
  {
    [n / 0x100_0000, n / 0x1_0000 % 256, n / 0x100 % 256, n % 256]
  }

  function ReadU32(buf: seq<byte>, at: nat): u32
    requires at + 4 <= |buf|
  {
    var b0: int, b1: int, b2: int, b3: int := buf[at], buf[at + 1], buf[at + 2], buf[at + 3];
    b0 * 0x100_0000 + b1 * 0x1_0000 + b2 * 0x100 + b3
  }

  function Chunk(kind: ChunkKind, body: seq<byte>): (out: seq<byte>)
    requires |body| < 0x1_0000_0000
    ensures |out| == |body| + 12
  {
    U32(|body|) + Name(kind) + body + U32(Crc32Of(Name(kind) + body))
  }

  method MakeChunk(table: array<Word>, kind: ChunkKind, body: seq<byte>) returns (r: Result<seq<byte>, PngError>)
    requires IsCrcTable(table)
    ensures r == if |body| < 0x1_0000_0000 then Ok(Chunk(kind, body)) else Err(OutOfRange)
  {
    if |body| >= 0x1_0000_0000 {
      return Err(OutOfRange);
    }
    var name := Name(kind);
    var crc := Crc32(table, name + body);
    r := Ok(U32(|body|) + name + body + U32(crc));
  }

  // ---- encode -------------------------------------------------------------------------------

  function HeaderBody(width: u32, height: u32): (body: seq<byte>)
    ensures |body| == 13
  {
    U32(width) + U32(height) + [8, 6, 0, 0, 0]
  }

  /** The filtered stream of an image. */
  function RawOf(image: Image, filter: byte): seq<byte>
    requires |image.data| == image.width * image.height * 4 && (filter <= 2 || image.height == 0)
  {
    if image.height == 0 then []
    else
      DataSize(image);
      Coded(FilterAll(image.data, filter, image.width * 4, image.height), image.height)
  }

  lemma DataSize(image: Image)
    ensures Offset(image.width * 4, image.height) == image.width * image.height * 4
  {
    OffsetIsProduct(image.width * 4, image.height);
  }

  function Encode(z: Zlib, image: Image, filter: byte): Result<seq<byte>, PngError> {
    if |image.data| != image.width * image.height * 4 then Err(WrongLength)
    else if filter > 2 && image.height > 0 then Err(FilterNotImplemented)
    else
      var idat := z.deflate(RawOf(image, filter));
      if image.width >= 0x1_0000_0000 || image.height >= 0x1_0000_0000 || |idat| >= 0x1_0000_0000 then Err(OutOfRange)
      else Ok(SIGNATURE + Chunk(IHDR, HeaderBody(image.width, image.height)) + Chunk(IDAT, idat) + Chunk(IEND, []))
  }

  method EncodePng(z: Zlib, table: array<Word>, image: Image, filter: byte) returns (r: Result<seq<byte>, PngError>)
    requires IsCrcTable(table)
    ensures r == Encode(z, image, filter)
  {
    if |image.data| != image.width * image.height * 4 {
      return Err(WrongLength);
    }
    var raw: seq<byte> := [];
    if image.height > 0 {
      if filter > 2 {
        return Err(FilterNotImplemented);
      }
      DataSize(image);
      var buffer := Filter(image.data, filter, image.width * 4, image.height);
      raw := buffer[..];
    }
    var idat := z.deflate(raw);
    if image.width >= 0x1_0000_0000 || image.height >= 0x1_0000_0000 {
      return Err(OutOfRange);
    }
    var ihdr := MakeChunk(table, IHDR, HeaderBody(image.width, image.height));
    var data := MakeChunk(table, IDAT, idat);
    if data.Err? {
      return data;
    }
    var end := MakeChunk(table, IEND, []);
    return Ok(SIGNATURE + ihdr.value + data.value + end.value);
  }

  // ---- decode: chunks -----------------------------------------------------------------------

  datatype Header = Header(width: u32, height: u32, colour: byte)

  datatype Chunks = Chunks(header: Option<Header>, idat: seq<seq<byte>>,
                           palette: Option<seq<byte>>, transparency: Option<seq<byte>>)

  const NO_CHUNKS := Chunks(None, [], None, None)

  /** A slice that stops at the end of the buffer. */
  function Slice(buf: seq<byte>, from: nat, length: nat): seq<byte>
    requires from <= |buf|
  {
    if from + length <= |buf| then buf[from..from + length] else buf[from..]
  }

  /** A chunk type is compared as seven-bit text. */
  function KindAt(buf: seq<byte>, at: nat): ChunkKind
    requires at + 4 <= |buf|
  {
    KindOf([buf[at] % 128, buf[at + 1] % 128, buf[at + 2] % 128, buf[at + 3] % 128])
  }

  function ReadHeader(body: seq<byte>): Result<Header, PngError> {
    if |body| < 8 then Err(HeaderTruncated)
    else if |body| < 9 || body[8] != 8 then Err(UnsupportedDepth)
    else if |body| < 13 || body[12] != 0 then Err(Interlaced)
    else Ok(Header(ReadU32(body, 0), ReadU32(body, 4), body[9]))
  }

  function TakeChunk(found: Chunks, kind: ChunkKind, body: seq<byte>): Result<Chunks, PngError> {
    match kind
    case IHDR =>
      var header := ReadHeader(body);
      if header.Err? then Err(header.error) else Ok(found.(header := Some(header.value)))
    case PLTE => Ok(found.(palette := Some(body)))
    case TRNS => Ok(found.(transparency := Some(body)))
    case IDAT => Ok(found.(idat := found.idat + [body]))
    case _ => Ok(found)
  }

  function ReadChunks(buf: seq<byte>, offset: nat, found: Chunks): Result<Chunks, PngError>
    decreases |buf| - offset
  {
    if offset + 8 > |buf| then Ok(found)
    else
      var length, kind := ReadU32(buf, offset), KindAt(buf, offset + 4);
      if kind == IEND then Ok(found)
      else
        var next := TakeChunk(found, kind, Slice(buf, offset + 8, length));
        if next.Err? then next else ReadChunks(buf, offset + 12 + length, next.value)
  }

  method CollectChunks(buf: seq<byte>) returns (r: Result<Chunks, PngError>)
    ensures r == ReadChunks(buf, 8, NO_CHUNKS)
  {
    hide TakeChunk, KindAt, ReadU32, Slice;
    var offset: nat, found := 8, NO_CHUNKS;
    while offset + 8 <= |buf|
      invariant ReadChunks(buf, 8, NO_CHUNKS) == ReadChunks(buf, offset, found)
      decreases |buf| - offset
    {
      var length := ReadU32(buf, offset);
      var kind := KindAt(buf, offset + 4);
      var body := Slice(buf, offset + 8, length);
      if kind == IEND {
        break;
      }
      var next := TakeChunk(found, kind, body);
      if next.Err? {
        return next;
      }
      offset, found := offset + 12 + length, next.value;
    }
    return Ok(found);
  }

  // ---- decode: pixels -----------------------------------------------------------------------

  function ChannelsFor(colour: byte): Option<nat> {
    match colour
    case 0 => Some(1)
    case 2 => Some(3)
    case 3 => Some(1)
    case 4 => Some(2)
    case 6 => Some(4)
    case _ => None
  }

  /** A byte past the end of the palette reads as undefined, which a buffer stores as 0. */
  function ByteOr0(bytes: seq<byte>, at: nat): byte {
    if at < |bytes| then bytes[at] else 0
  }

  function Pixel(lines: seq<byte>, i: nat, colour: byte, palette: seq<byte>, transparency: seq<byte>): (rgba: seq<byte>)
    requires ChannelsFor(colour).Some? && ChannelsFor(colour).value * i + ChannelsFor(colour).value <= |lines|
    ensures |rgba| == 4
  {
    match colour
    case 0 => [lines[i], lines[i], lines[i], 255]
    case 2 => [lines[3 * i], lines[3 * i + 1], lines[3 * i + 2], 255]
    case 3 =>
      var p := lines[i];
      [ByteOr0(palette, 3 * p), ByteOr0(palette, 3 * p + 1), ByteOr0(palette, 3 * p + 2),
       if p < |transparency| then transparency[p] else 255]
    case 4 => [lines[2 * i], lines[2 * i], lines[2 * i], lines[2 * i + 1]]
    case _ => lines[4 * i..4 * i + 4]
  }

  function Pixels(lines: seq<byte>, n: nat, colour: byte, palette: seq<byte>, transparency: seq<byte>): (rgba: seq<byte>)
    requires ChannelsFor(colour).Some? && ChannelsFor(colour).value * n <= |lines|
    ensures |rgba| == 4 * n
  {
    if n == 0 then []
    else Pixels(lines, n - 1, colour, palette, transparency) + Pixel(lines, n - 1, colour, palette, transparency)
  }

  function OrEmpty(bytes: Option<seq<byte>>): seq<byte> {
    if bytes.Some? then bytes.value else []
  }

  function Rgba(lines: seq<byte>, pixels: nat, colour: byte, found: Chunks): (r: Result<seq<byte>, PngError>)
    requires ChannelsFor(colour).Some? && ChannelsFor(colour).value * pixels == |lines|
    ensures r.Ok? ==> |r.value| == 4 * pixels
  {
    if colour == 6 then Ok(lines)
    else if colour == 3 && found.palette.None? && pixels > 0 then Err(MissingPalette)
    else Ok(Pixels(lines, pixels, colour, OrEmpty(found.palette), OrEmpty(found.transparency)))
  }

  method ToRgba(lines: seq<byte>, pixels: nat, colour: byte, found: Chunks) returns (r: Result<seq<byte>, PngError>)
    requires ChannelsFor(colour).Some? && ChannelsFor(colour).value * pixels == |lines|
    ensures r == Rgba(lines, pixels, colour, found)
  {
    hide Pixel, ByteOr0;
    if colour == 6 {
      return Ok(lines);
    }
    var palette, transparency := OrEmpty(found.palette), OrEmpty(found.transparency);
    var out := new byte[4 * pixels];
    for i := 0 to pixels
      invariant colour != 3 || found.palette.Some? || i == 0
      invariant out[..4 * i] == Pixels(lines, i, colour, palette, transparency)
    {
      if colour == 3 && found.palette.None? {
        return Err(MissingPalette);
      }
      var r, g, b, a := ReadPixel(lines, i, colour, palette, transparency);
      Put(out, 4 * i, r, g, b, a);
    }
    assert out[..4 * pixels] == out[..];
    return Ok(out[..]);
  }

  /** The colour-type switch, for every type but RGBA. */
  method ReadPixel(lines: seq<byte>, i: nat, colour: byte, palette: seq<byte>, transparency: seq<byte>)
    returns (r: byte, g: byte, b: byte, a: byte)
    requires colour != 6 && ChannelsFor(colour).Some?
    requires ChannelsFor(colour).value * i + ChannelsFor(colour).value <= |lines|
    ensures [r, g, b, a] == Pixel(lines, i, colour, palette, transparency)
  {
    if colour == 0 {
      r, g, b, a := lines[i], lines[i], lines[i], 255;
    } else if colour == 2 {
      var s := 3 * i;
      r, g, b, a := lines[s], lines[s + 1], lines[s + 2], 255;
    } else if colour == 3 {
      var p := lines[i];
      r, g, b := ByteOr0(palette, 3 * p), ByteOr0(palette, 3 * p + 1), ByteOr0(palette, 3 * p + 2);
      a := if p < |transparency| then transparency[p] else 255;
    } else {
      var s := 2 * i;
      r, g, b, a := lines[s], lines[s], lines[s], lines[s + 1];
    }
  }

  method Put(out: array<byte>, o: nat, r: byte, g: byte, b: byte, a: byte)
    requires o + 4 <= out.Length
    modifies out
    ensures out[..o + 4] == old(out[..o]) + [r, g, b, a]
  {
    out[o], out[o + 1], out[o + 2], out[o + 3] := r, g, b, a;
  }

  function Unpack(z: Zlib, found: Chunks): (r: Result<Image, PngError>)
    ensures r.Ok? ==> SizedImage(r.value)
  {
    if found.header.None? then Err(NoHeader)
    else if found.idat == [] then Err(NoData)
    else
      var Header(width, height, colour) := found.header.value;
      var channels := ChannelsFor(colour);
      if channels.None? then Err(UnsupportedColour)
      else
        var stride, inflated := width * channels.value, z.inflate(Flat(found.idat));
        OffsetIsProduct(stride + 1, height);
        if inflated.None? then Err(InflateFailed)
        else if |inflated.value| < (stride + 1) * height then Err(TooShort)
        else
          var lines := UnfilterImage(Scanlines(inflated.value, stride, height), stride, channels.value);
          if lines.Err? then Err(UnknownFilter(lines.error))
          else
            ImageSize(inflated.value, width, height, channels.value, stride);
            var data := Rgba(lines.value, width * height, colour, found);
            if data.Err? then Err(data.error)
            else
              var image := Image(width, height, data.value);
              assert |image.data| == 4 * (width * height);
              Ok(image)
  }

  /** Four bytes for each pixel, and a size that a header can hold. */
  ghost predicate SizedImage(image: Image) {
    && |image.data| == image.width * image.height * 4
    && image.width < 0x1_0000_0000 && image.height < 0x1_0000_0000
  }

  lemma UnfilteredSize(lines: seq<Scanline>, stride: nat, bpp: nat)
    requires 0 < bpp && EvenLines(lines, stride)
    ensures UnfilterImage(lines, stride, bpp).Ok? ==> |UnfilterImage(lines, stride, bpp).value| == Offset(stride, |lines|)
  {
    var rows := UnfilterRows(lines, stride, bpp, |lines|);
    if rows.Ok? {
      FlatLength(rows.value, stride);
    }
  }

  lemma Regroup(width: nat, channels: nat, height: nat)
    ensures width * channels * height == channels * (width * height)
  {
  }

  lemma ImageSize(raw: seq<byte>, width: nat, height: nat, channels: nat, stride: nat)
    requires stride == width * channels && 0 < channels && Offset(stride + 1, height) <= |raw|
    ensures var lines := UnfilterImage(Scanlines(raw, stride, height), stride, channels);
      lines.Ok? ==> |lines.value| == channels * (width * height)
  {
    hide Scanlines, UnfilterImage, Offset;
    UnfilteredSize(Scanlines(raw, stride, height), stride, channels);
    OffsetIsProduct(stride, height);
    Regroup(width, channels, height);
  }

  function Decode(z: Zlib, buf: seq<byte>): Result<Image, PngError> {
    if |buf| < 8 || buf[..8] != SIGNATURE then Err(BadSignature)
    else
      var found := ReadChunks(buf, 8, NO_CHUNKS);
      if found.Err? then Err(found.error) else Unpack(z, found.value)
  }

  method DecodePng(z: Zlib, buf: seq<byte>) returns (r: Result<Image, PngError>)
    ensures r == Decode(z, buf)
  {
    if |buf| < 8 || buf[..8] != SIGNATURE {
      return Err(BadSignature);
    }
    var chunks := CollectChunks(buf);
    if chunks.Err? {
      return Err(chunks.error);
    }
    r := UnpackPixels(z, chunks.value);
  }

  method UnpackPixels(z: Zlib, found: Chunks) returns (r: Result<Image, PngError>)
    ensures r == Unpack(z, found)
  {
    if found.header.None? {
      return Err(NoHeader);
    }
    if found.idat == [] {
      return Err(NoData);
    }
    var Header(width, height, colour) := found.header.value;
    var channels := ChannelsFor(colour);
    if channels.None? {
      return Err(UnsupportedColour);
    }
    var bpp := channels.value;
    var stride := width * bpp;
    var inflated := z.inflate(Flat(found.idat));
    if inflated.None? {
      return Err(InflateFailed);
    }
    if |inflated.value| < (stride + 1) * height {
      return Err(TooShort);
    }
    OffsetIsProduct(stride + 1, height);
    ImageSize(inflated.value, width, height, bpp, stride);
    var lines := Unfilter(inflated.value, stride, bpp, height, Scanlines(inflated.value, stride, height));
    if lines.Err? {
      return Err(UnknownFilter(lines.error));
    }
    var data := ToRgba(lines.value, width * height, colour, found);
    if data.Err? {
      return Err(data.error);
    }
    return Ok(Image(width, height, data.value));
  }

  // ---- the round trip -----------------------------------------------------------------------

  lemma Digits(n: u32)
    ensures n == n / 0x100_0000 * 0x100_0000 + n / 0x1_0000 % 256 * 0x1_0000 + n / 0x100 % 256 * 0x100 + n % 256
  {
    var a, b, c := n / 0x100, n / 0x1_0000, n / 0x100_0000;
    assert n == 256 * a + n % 256;
    assert a == 256 * b + a % 256;
    assert b == 256 * c + b % 256;
  }

  lemma NumberRoundTrip(n: u32, buf: seq<byte>, at: nat)
    requires At(buf, at, U32(n))
    ensures ReadU32(buf, at) == n
  {
    assert forall i :: 0 <= i < 4 ==> buf[at..at + 4][i] == U32(n)[i];
    assert buf[at] == U32(n)[0] && buf[at + 1] == U32(n)[1] && buf[at + 2] == U32(n)[2] && buf[at + 3] == U32(n)[3];
    Digits(n);
  }

  predicate At(buf: seq<byte>, at: nat, part: seq<byte>) {
    at + |part| <= |buf| && buf[at..at + |part|] == part
  }

  lemma AtSplit(buf: seq<byte>, at: nat, a: seq<byte>, b: seq<byte>)
    requires At(buf, at, a + b)
    ensures At(buf, at, a) && At(buf, at + |a|, b)
  {
    var whole := buf[at..at + |a + b|];
    assert whole[..|a|] == a && whole[|a|..] == b;
    assert buf[at..at + |a|] == whole[..|a|];
    assert buf[at + |a|..at + |a| + |b|] == whole[|a|..];
  }

  lemma ChunkParts(buf: seq<byte>, at: nat, kind: ChunkKind, body: seq<byte>)
    requires |body| < 0x1_0000_0000 && At(buf, at, Chunk(kind, body))
    ensures at + |body| + 12 <= |buf|
    ensures At(buf, at, U32(|body|)) && At(buf, at + 4, Name(kind)) && At(buf, at + 8, body)
  {
    hide At, U32, Name, Crc32Of;
    var length, name, crc := U32(|body|), Name(kind), U32(Crc32Of(Name(kind) + body));
    AtSplit(buf, at, length + name + body, crc);
    AtSplit(buf, at, length + name, body);
    AtSplit(buf, at, length, name);
    AtFits(buf, at, Chunk(kind, body));
  }

  lemma AtFits(buf: seq<byte>, at: nat, part: seq<byte>)
    requires At(buf, at, part)
    ensures at + |part| <= |buf|
  {
  }

  lemma SliceRoundTrip(buf: seq<byte>, at: nat, body: seq<byte>)
    requires At(buf, at, body)
    ensures at <= |buf| && Slice(buf, at, |body|) == body
  {
  }

  /** A chunk in a buffer reads back as its length, type and body. */
  lemma ChunkRoundTrip(buf: seq<byte>, at: nat, kind: ChunkKind, body: seq<byte>)
    requires |body| < 0x1_0000_0000 && At(buf, at, Chunk(kind, body))
    ensures ReadU32(buf, at) == |body| && KindAt(buf, at + 4) == kind && Slice(buf, at + 8, |body|) == body
  {
    ChunkParts(buf, at, kind, body);
    hide *;
    NumberRoundTrip(|body|, buf, at);
    KindRoundTrip(buf, at + 4, kind);
    SliceRoundTrip(buf, at + 8, body);
  }

  lemma KindRoundTrip(buf: seq<byte>, at: nat, kind: ChunkKind)
    requires At(buf, at, Name(kind))
    ensures KindAt(buf, at) == kind
  {
  }

  lemma HeaderRoundTrip(width: u32, height: u32)
    ensures ReadHeader(HeaderBody(width, height)) == Ok(Header(width, height, 6))
  {
    var body := HeaderBody(width, height);
    assert body[0..4] == U32(width) && body[4..8] == U32(height);
    NumberRoundTrip(width, body, 0);
    NumberRoundTrip(height, body, 4);
  }

  /** One turn of the chunk loop over a well-formed chunk. */
  lemma NextChunk(buf: seq<byte>, at: nat, kind: ChunkKind, body: seq<byte>, found: Chunks)
    requires |body| < 0x1_0000_0000 && At(buf, at, Chunk(kind, body))
    requires kind != IEND ==> TakeChunk(found, kind, body).Ok?
    ensures ReadChunks(buf, at, found)
              == if kind == IEND then Ok(found)
                 else ReadChunks(buf, at + 12 + |body|, TakeChunk(found, kind, body).value)
  {
    hide TakeChunk, KindAt, ReadU32, Slice, Chunk, U32;
    ChunkRoundTrip(buf, at, kind, body);
  }

  lemma WhereChunks(buf: seq<byte>, a: seq<byte>, b: seq<byte>, c: seq<byte>)
    requires buf == SIGNATURE + a + b + c
    ensures At(buf, 0, SIGNATURE) && At(buf, 8, a) && At(buf, 8 + |a|, b) && At(buf, 8 + |a| + |b|, c)
  {
  }

  lemma TakeData(found: Chunks, idat: seq<byte>)
    ensures TakeChunk(found, IDAT, idat) == Ok(found.(idat := found.idat + [idat]))
  {
  }

  /** The chunk loop over a data chunk and the end chunk. */
  lemma DataThenEnd(buf: seq<byte>, at: nat, idat: seq<byte>, found: Chunks)
    requires |idat| < 0x1_0000_0000
    requires At(buf, at, Chunk(IDAT, idat)) && At(buf, at + 12 + |idat|, Chunk(IEND, []))
    ensures ReadChunks(buf, at, found) == Ok(found.(idat := found.idat + [idat]))
  {
    hide *;
    var all := found.(idat := found.idat + [idat]);
    TakeData(found, idat);
    NextChunk(buf, at, IDAT, idat, found);
    NextChunk(buf, at + 12 + |idat|, IEND, [], all);
  }

  /** The chunk loop over header, data and end. */
  lemma ThreeChunks(buf: seq<byte>, header: seq<byte>, idat: seq<byte>)
    requires |header| == 13 && ReadHeader(header).Ok? && |idat| < 0x1_0000_0000
    requires At(buf, 8, Chunk(IHDR, header)) && At(buf, 33, Chunk(IDAT, idat)) && At(buf, 45 + |idat|, Chunk(IEND, []))
    ensures ReadChunks(buf, 8, NO_CHUNKS) == Ok(Chunks(Some(ReadHeader(header).value), [idat], None, None))
  {
    hide *;
    var found := Chunks(Some(ReadHeader(header).value), [], None, None);
    TakeHeader(header);
    NextChunk(buf, 8, IHDR, header, NO_CHUNKS);
    DataThenEnd(buf, 33, idat, found);
    assert [] + [idat] == [idat];
  }

  lemma TakeHeader(header: seq<byte>)
    requires ReadHeader(header).Ok?
    ensures TakeChunk(NO_CHUNKS, IHDR, header) == Ok(Chunks(Some(ReadHeader(header).value), [], None, None))
  {
    hide ReadHeader;
  }

  lemma FilterAllInverse(data: seq<byte>, filter: byte, stride: nat, height: nat)
    requires filter <= 4 && |data| == Offset(stride, height)
    ensures UnfilterImage(FilterAll(data, filter, stride, height), stride, 4) == Ok(data)
  {
    var rows, filters: seq<byte> := Rows(data, stride, height), seq(height, _ => filter);
    assert UnfilterRows(FilterRows(rows, filters, stride, 4), stride, 4, height) == Ok(rows) by {
      UnfilterInvertsFilter(rows, filters, stride, 4, height);
      assert rows[..height] == rows;
    }
    FlatRows(data, stride, height);
    assert data[..Offset(stride, height)] == data;
  }

  lemma PixelsRoundTrip(image: Image, filter: byte)
    requires |image.data| == image.width * image.height * 4 && (filter <= 2 || image.height == 0)
    ensures var raw, stride := RawOf(image, filter), image.width * 4;
      && |raw| == Offset(stride + 1, image.height)
      && UnfilterImage(Scanlines(raw, stride, image.height), stride, 4) == Ok(image.data)
  {
    var raw, stride, height := RawOf(image, filter), image.width * 4, image.height;
    DataSize(image);
    if height > 0 {
      var lines := FilterAll(image.data, filter, stride, height);
      CodedStored(lines, stride, height);
      StoredUnique(raw, lines, stride);
      FilterAllInverse(image.data, filter, stride, height);
    }
  }

  lemma Encoded(z: Zlib, image: Image, filter: byte)
    requires Encode(z, image, filter).Ok?
    ensures |image.data| == image.width * image.height * 4 && (filter <= 2 || image.height == 0)
    ensures image.width < 0x1_0000_0000 && image.height < 0x1_0000_0000 && |z.deflate(RawOf(image, filter))| < 0x1_0000_0000
    ensures var idat := z.deflate(RawOf(image, filter));
      Encode(z, image, filter).value
        == SIGNATURE + Chunk(IHDR, HeaderBody(image.width, image.height)) + Chunk(IDAT, idat) + Chunk(IEND, [])
  {
    hide RawOf, Chunk, HeaderBody;
  }

  lemma Decoded(z: Zlib, buf: seq<byte>, found: Chunks)
    requires At(buf, 0, SIGNATURE) && ReadChunks(buf, 8, NO_CHUNKS) == Ok(found)
    ensures Decode(z, buf) == Unpack(z, found)
  {
    hide ReadChunks, Unpack;
  }

  /** Whatever the encoder accepts, the decoder returns unchanged: every image, every filter. */
  lemma RoundTrip(z: Zlib, image: Image, filter: byte)
    requires z.Inverse() && Encode(z, image, filter).Ok?
    ensures Decode(z, Encode(z, image, filter).value) == Ok(image)
  {
    hide *;
    Encoded(z, image, filter);
    var png, header := Encode(z, image, filter).value, HeaderBody(image.width, image.height);
    var idat := z.deflate(RawOf(image, filter));
    WhereChunks(png, Chunk(IHDR, header), Chunk(IDAT, idat), Chunk(IEND, []));
    HeaderRoundTrip(image.width, image.height);
    ThreeChunks(png, header, idat);
    UnpackRoundTrip(z, image, filter);
    Decoded(z, png, Chunks(Some(ReadHeader(header).value), [idat], None, None));
  }

  lemma UnpackRoundTrip(z: Zlib, image: Image, filter: byte)
    requires z.Inverse() && Encode(z, image, filter).Ok?
    ensures Unpack(z, Chunks(Some(Header(image.width, image.height, 6)), [z.deflate(RawOf(image, filter))], None, None))
              == Ok(image)
  {
    var raw := RawOf(image, filter);
    assert z.inflate(Flat([z.deflate(raw)])) == Some(raw) by { FlatOne(z.deflate(raw)); }
    PixelsRoundTrip(image, filter);
    assert |raw| == (image.width * 4 + 1) * image.height by { OffsetIsProduct(image.width * 4 + 1, image.height); }
  }

  lemma FlatOne(row: seq<byte>)
    ensures Flat([row]) == row
  {
  }

  /** A decoded image always has a size the encoder can write. */
  lemma DecodedSize(z: Zlib, buf: seq<byte>)
    ensures Decode(z, buf).Ok? ==> SizedImage(Decode(z, buf).value)
  {
  }
}
