/** The bytes that src/image/png.js writes and accepts, field by field: which buffers decode, to what
    image, when an image can be encoded, and what the encoding holds. */
module PngFormat {
  import opened Prelude
  import opened Crc
  import opened RowFilters
  import opened Png
  import opened Neighbours

  // ---- fields -------------------------------------------------------------------------------

  function BigEndian(bytes: seq<byte>): nat {
    if bytes == [] then 0 else 256 * BigEndian(bytes[..|bytes| - 1]) + bytes[|bytes| - 1]
  }

  predicate Spells(bytes: seq<byte>, text: string) {
    |bytes| == |text| && forall i :: 0 <= i < |text| ==> bytes[i] == text[i] as int
  }

  /** The same when only the low seven bits of a byte are compared. */
  predicate Reads(bytes: seq<byte>, text: string) {
    |bytes| == |text| && forall i :: 0 <= i < |text| ==> bytes[i] % 128 == text[i] as int
  }

  lemma FourDigits(bytes: seq<byte>, b0: int, b1: int, b2: int, b3: int)
    requires |bytes| == 4 && b0 == bytes[0] && b1 == bytes[1] && b2 == bytes[2] && b3 == bytes[3]
    ensures BigEndian(bytes) == b0 * 0x100_0000 + b1 * 0x1_0000 + b2 * 0x100 + b3
  {
    var three, two, one := bytes[..3], bytes[..2], bytes[..1];
    assert three[..2] == two && two[..1] == one && one[..0] == [];
    assert BigEndian(one) == b0 && BigEndian(two) == 256 * b0 + b1;
    assert BigEndian(three) == 256 * BigEndian(two) + b2;
  }

  lemma ReadIsBigEndian(buf: seq<byte>, at: nat)
    requires at + 4 <= |buf|
    ensures ReadU32(buf, at) == BigEndian(buf[at..at + 4])
  {
    FourDigits(buf[at..at + 4], buf[at], buf[at + 1], buf[at + 2], buf[at + 3]);
  }

  lemma WrittenIsBigEndian(n: u32)
    ensures BigEndian(U32(n)) == n
  {
    FourDigits(U32(n), n / 0x100_0000, n / 0x1_0000 % 256, n / 0x100 % 256, n % 256);
    Digits(n);
  }

  lemma NamesSpelled()
    ensures Spells(Name(IHDR), "IHDR") && Spells(Name(PLTE), "PLTE") && Spells(Name(TRNS), "tRNS")
    ensures Spells(Name(IDAT), "IDAT") && Spells(Name(IEND), "IEND")
  {
  }

  lemma KindNamed(name: seq<byte>, kind: ChunkKind)
    requires kind != Other
    ensures KindOf(name) == kind <==> name == Name(kind)
  {
    assert Name(IHDR)[1] == 72 && Name(PLTE)[1] == 76 && Name(TRNS)[1] == 82 && Name(IDAT)[1] == 68 && Name(IEND)[1] == 69;
  }

  /** The chunk at `at` is taken for what the low seven bits of its type spell. */
  lemma KindRead(buf: seq<byte>, at: nat, kind: ChunkKind, text: string)
    requires at + 4 <= |buf| && kind != Other && Spells(Name(kind), text)
    ensures KindAt(buf, at) == kind <==> Reads(buf[at..at + 4], text)
  {
    hide Name, KindOf;
    var name := buf[at..at + 4];
    var seven: seq<byte> := [buf[at] % 128, buf[at + 1] % 128, buf[at + 2] % 128, buf[at + 3] % 128];
    assert forall i :: 0 <= i < 4 ==> seven[i] == name[i] % 128;
    KindNamed(seven, kind);
    assert |text| == 4;
    if Reads(name, text) {
      assert forall i :: 0 <= i < 4 ==> seven[i] == Name(kind)[i];
    }
  }

  // ---- the chunks of a buffer ---------------------------------------------------------------

  /** The type and the body of a chunk. */
  datatype Part = Part(name: seq<byte>, body: seq<byte>) {
    predicate Is(text: string) {
      Reads(name, text)
    }
  }

  /** The part of a buffer from `from` to `to`, as far as it goes. */
  function Cut(buf: seq<byte>, from: nat, to: nat): seq<byte>
    requires from <= |buf| && from <= to
  {
    if to <= |buf| then buf[from..to] else buf[from..]
  }

  /** The chunks from `at` up to an end chunk, or to where less than a length and a type are left. The
      checksum after a body is passed over, whatever it is. */
  function Parts(buf: seq<byte>, at: nat): seq<Part>
    decreases |buf| - at
  {
    if at + 8 > |buf| || Reads(buf[at + 4..at + 8], "IEND") then []
    else
      var end := at + 8 + BigEndian(buf[at..at + 4]);
      [Part(buf[at + 4..at + 8], Cut(buf, at + 8, end))] + Parts(buf, end + 4)
  }

  function Bodies(parts: seq<Part>, text: string): seq<seq<byte>> {
    if parts == [] then []
    else (if parts[0].Is(text) then [parts[0].body] else []) + Bodies(parts[1..], text)
  }

  function Last(parts: seq<Part>, text: string): Option<seq<byte>> {
    var bodies := Bodies(parts, text);
    if bodies == [] then None else Some(bodies[|bodies| - 1])
  }

  /** Eight bits a channel, not interlaced. */
  predicate Accepted(header: seq<byte>) {
    |header| >= 13 && header[8] == 8 && header[12] == 0
  }

  function HeaderOf(header: seq<byte>): Header
    requires Accepted(header)
  {
    FieldFits(header[..4]);
    FieldFits(header[4..8]);
    Header(BigEndian(header[..4]), BigEndian(header[4..8]), header[9])
  }

  lemma FieldFits(bytes: seq<byte>)
    requires |bytes| == 4
    ensures BigEndian(bytes) < 0x1_0000_0000
  {
    ReadIsBigEndian(bytes, 0);
    assert bytes[0..4] == bytes;
  }

  lemma HeaderIff(body: seq<byte>)
    ensures ReadHeader(body).Ok? <==> Accepted(body)
    ensures Accepted(body) ==> ReadHeader(body).value == HeaderOf(body)
  {
    if |body| >= 13 {
      ReadIsBigEndian(body, 0);
      ReadIsBigEndian(body, 4);
      assert body[0..4] == body[..4];
    }
  }

  ghost predicate AllAccepted(headers: seq<seq<byte>>) {
    forall i :: 0 <= i < |headers| ==> Accepted(headers[i])
  }

  /** What the chunk loop has found after more chunks: the last of each kind counts, and every piece
      of the data. */
  ghost predicate FoundAfter(now: Chunks, was: Chunks, parts: seq<Part>) {
    var header := Last(parts, "IHDR");
    && now.header == (if header.Some? && Accepted(header.value) then Some(HeaderOf(header.value)) else was.header)
    && now.idat == was.idat + Bodies(parts, "IDAT")
    && now.palette == Later(Last(parts, "PLTE"), was.palette)
    && now.transparency == Later(Last(parts, "tRNS"), was.transparency)
  }

  function Later<T>(now: Option<T>, was: Option<T>): Option<T> {
    if now.Some? then now else was
  }

  lemma Turn(buf: seq<byte>, at: nat, found: Chunks)
    requires at + 8 <= |buf| && !Reads(buf[at + 4..at + 8], "IEND")
    ensures var part := Parts(buf, at)[0];
      var next := TakeChunk(found, KindAt(buf, at + 4), part.body);
      && Parts(buf, at) == [part] + Parts(buf, at + 12 + ReadU32(buf, at)) && part.name == buf[at + 4..at + 8]
      && ReadChunks(buf, at, found)
           == if next.Err? then next else ReadChunks(buf, at + 12 + ReadU32(buf, at), next.value)
  {
    hide TakeChunk, KindAt, ReadU32, Reads, BigEndian;
    NamesSpelled();
    KindRead(buf, at + 4, IEND, "IEND");
    ReadIsBigEndian(buf, at);
  }

  lemma OneMore(part: Part, parts: seq<Part>, text: string)
    ensures Bodies([part], text) == if part.Is(text) then [part.body] else []
    ensures Bodies([part] + parts, text) == Bodies([part], text) + Bodies(parts, text)
    ensures Last([part] + parts, text) == Later(Last(parts, text), Last([part], text))
  {
    hide Reads;
    var all := [part] + parts;
    assert all[0] == part && all[1..] == parts && [part][1..] == [];
  }

  lemma Taken(found: Chunks, buf: seq<byte>, at: nat, part: Part)
    requires at + 4 <= |buf| && part.name == buf[at..at + 4] && !part.Is("IEND")
    ensures var next := TakeChunk(found, KindAt(buf, at), part.body);
      if part.Is("IHDR") && !Accepted(part.body) then next.Err? else next.Ok? && FoundAfter(next.value, found, [part])
  {
    hide KindAt, Reads, ReadHeader, Bodies, Accepted, HeaderOf;
    NamesSpelled();
    KindRead(buf, at, IHDR, "IHDR");
    KindRead(buf, at, PLTE, "PLTE");
    KindRead(buf, at, TRNS, "tRNS");
    KindRead(buf, at, IDAT, "IDAT");
    KindRead(buf, at, IEND, "IEND");
    OneMore(part, [], "IHDR");
    OneMore(part, [], "PLTE");
    OneMore(part, [], "tRNS");
    OneMore(part, [], "IDAT");
    HeaderIff(part.body);
  }

  lemma FoundMore(a: Chunks, b: Chunks, c: Chunks, part: Part, parts: seq<Part>)
    requires FoundAfter(b, a, [part]) && FoundAfter(c, b, parts)
    requires AllAccepted(Bodies([part] + parts, "IHDR"))
    ensures FoundAfter(c, a, [part] + parts)
  {
    hide Reads, Bodies, Accepted, HeaderOf, Last, AllAccepted;
    OneMore(part, parts, "IHDR");
    OneMore(part, parts, "PLTE");
    OneMore(part, parts, "tRNS");
    OneMore(part, parts, "IDAT");
    LastAccepted(part, parts);
  }

  lemma LastAccepted(part: Part, parts: seq<Part>)
    requires AllAccepted(Bodies([part] + parts, "IHDR"))
    ensures Last([part], "IHDR").Some? ==> Accepted(Last([part], "IHDR").value)
    ensures Last(parts, "IHDR").Some? ==> Accepted(Last(parts, "IHDR").value)
  {
    hide Reads, Bodies, Accepted;
    OneMore(part, parts, "IHDR");
    var one, more, all := Bodies([part], "IHDR"), Bodies(parts, "IHDR"), Bodies([part] + parts, "IHDR");
    assert one != [] ==> all[|one| - 1] == one[|one| - 1];
    assert more != [] ==> all[|all| - 1] == more[|more| - 1];
  }

  lemma NothingFound(found: Chunks)
    ensures FoundAfter(found, found, [])
  {
  }

  lemma AcceptedMore(part: Part, parts: seq<Part>)
    ensures AllAccepted(Bodies([part] + parts, "IHDR")) <==>
              (part.Is("IHDR") ==> Accepted(part.body)) && AllAccepted(Bodies(parts, "IHDR"))
  {
    hide Reads, Bodies, Accepted;
    OneMore(part, parts, "IHDR");
    var one, more, all := Bodies([part], "IHDR"), Bodies(parts, "IHDR"), Bodies([part] + parts, "IHDR");
    if AllAccepted(all) {
      assert forall i :: 0 <= i < |one| ==> one[i] == all[i];
      assert forall i :: 0 <= i < |more| ==> more[i] == all[|one| + i];
    }
  }

  lemma NoHeaders()
    ensures AllAccepted(Bodies([], "IHDR"))
  {
  }

  lemma NotEnd(part: Part, buf: seq<byte>, at: nat)
    requires at + 8 <= |buf| && !Reads(buf[at + 4..at + 8], "IEND") && part.name == buf[at + 4..at + 8]
    ensures !part.Is("IEND")
  {
  }

  lemma AtEnd(buf: seq<byte>, at: nat, found: Chunks)
    requires at + 8 > |buf| || Reads(buf[at + 4..at + 8], "IEND")
    ensures Parts(buf, at) == [] && ReadChunks(buf, at, found) == Ok(found)
  {
    NamesSpelled();
    if at + 8 <= |buf| {
      KindRead(buf, at + 4, IEND, "IEND");
    }
  }

  /** The chunk loop ends well exactly when every header chunk is accepted, and then it has found that. */
  lemma {:induction false} ChunksIff(buf: seq<byte>, at: nat, found: Chunks)
    ensures var r, parts := ReadChunks(buf, at, found), Parts(buf, at);
      && (r.Ok? <==> AllAccepted(Bodies(parts, "IHDR")))
      && (r.Ok? ==> FoundAfter(r.value, found, parts))
    decreases |buf| - at
  {
    hide *;
    if at + 8 > |buf| || Reads(buf[at + 4..at + 8], "IEND") {
      AtEnd(buf, at, found);
      NothingFound(found);
      NoHeaders();
    } else {
      Turn(buf, at, found);
      var part, after := Parts(buf, at)[0], at + 12 + ReadU32(buf, at);
      var next := TakeChunk(found, KindAt(buf, at + 4), part.body);
      NotEnd(part, buf, at);
      Taken(found, buf, at + 4, part);
      AcceptedMore(part, Parts(buf, after));
      if next.Ok? {
        ChunksIff(buf, after, next.value);
        var r := ReadChunks(buf, after, next.value);
        if r.Ok? {
          FoundMore(found, next.value, r.value, part, Parts(buf, after));
        }
      }
    }
  }

  // ---- pixels -------------------------------------------------------------------------------

  /** How many samples a pixel of each supported colour type has (section 4.1.1 of RFC 2083). */
  predicate Supported(colour: byte, samples: nat) {
    || (colour == 0 && samples == 1) || (colour == 2 && samples == 3) || (colour == 3 && samples == 1)
    || (colour == 4 && samples == 2) || (colour == 6 && samples == 4)
  }

  predicate IsPixel(rgba: seq<byte>, i: nat, red: byte, green: byte, blue: byte, alpha: byte) {
    && Sample(rgba, 4, i, 0) == red && Sample(rgba, 4, i, 1) == green
    && Sample(rgba, 4, i, 2) == blue && Sample(rgba, 4, i, 3) == alpha
  }

  /** Pixel `i` of an RGBA buffer, from the samples of pixel `i`: grey, colours, a palette entry or grey
      with alpha; opaque unless the colour type or the transparency of a palette entry says otherwise. */
  predicate Coloured(rgba: seq<byte>, colour: byte, samples: seq<byte>, palette: seq<byte>, transparency: seq<byte>, i: nat) {
    match colour
    case 0 => var grey := Sample(samples, 1, i, 0); IsPixel(rgba, i, grey, grey, grey, 255)
    case 2 => IsPixel(rgba, i, Sample(samples, 3, i, 0), Sample(samples, 3, i, 1), Sample(samples, 3, i, 2), 255)
    case 3 =>
      var entry := Sample(samples, 1, i, 0);
      IsPixel(rgba, i, Sample(palette, 3, entry, 0), Sample(palette, 3, entry, 1), Sample(palette, 3, entry, 2),
              if entry < |transparency| then transparency[entry] else 255)
    case 4 =>
      var grey := Sample(samples, 2, i, 0);
      IsPixel(rgba, i, grey, grey, grey, Sample(samples, 2, i, 1))
    case _ =>
      IsPixel(rgba, i, Sample(samples, 4, i, 0), Sample(samples, 4, i, 1), Sample(samples, 4, i, 2), Sample(samples, 4, i, 3))
  }

  lemma IsPixelIff(rgba: seq<byte>, i: nat, pixel: seq<byte>)
    requires 4 * i + 4 <= |rgba| && |pixel| == 4
    ensures rgba[4 * i..4 * i + 4] == pixel <==> IsPixel(rgba, i, pixel[0], pixel[1], pixel[2], pixel[3])
  {
    var now := rgba[4 * i..4 * i + 4];
    assert now == pixel <==> now[0] == pixel[0] && now[1] == pixel[1] && now[2] == pixel[2] && now[3] == pixel[3];
  }

  lemma PixelIff(rgba: seq<byte>, samples: seq<byte>, n: nat, i: nat, colour: byte, palette: seq<byte>, transparency: seq<byte>)
    requires Supported(colour, n) && n * i + n <= |samples| && 4 * i + 4 <= |rgba|
    ensures rgba[4 * i..4 * i + 4] == Pixel(samples, i, colour, palette, transparency) <==>
              Coloured(rgba, colour, samples, palette, transparency, i)
  {
    hide IsPixel;
    IsPixelIff(rgba, i, Pixel(samples, i, colour, palette, transparency));
  }

  /** Every pixel has its colour. */
  ghost predicate AllColoured(rgba: seq<byte>, colour: byte, samples: seq<byte>, palette: seq<byte>, transparency: seq<byte>,
                              n: nat)
  {
    && |rgba| == 4 * n
    && forall i: nat :: i < n ==> Coloured(rgba, colour, samples, palette, transparency, i)
  }

  lemma {:induction false} PixelsIff(rgba: seq<byte>, samples: seq<byte>, channels: nat, n: nat, colour: byte,
                                     palette: seq<byte>, transparency: seq<byte>)
    requires Supported(colour, channels) && channels * n <= |samples|
    ensures rgba == Pixels(samples, n, colour, palette, transparency) <==>
              AllColoured(rgba, colour, samples, palette, transparency, n)
  {
    hide Pixel, Coloured;
    if n > 0 && |rgba| == 4 * n {
      var before := rgba[..4 * n - 4];
      PixelsIff(before, samples, channels, n - 1, colour, palette, transparency);
      PixelIff(rgba, samples, channels, n - 1, colour, palette, transparency);
      assert rgba == before + rgba[4 * n - 4..4 * n];
      forall i: nat | i < n - 1
        ensures Coloured(before, colour, samples, palette, transparency, i) ==
                  Coloured(rgba, colour, samples, palette, transparency, i)
      {
        SamePixel(rgba, 4 * n - 4, colour, samples, palette, transparency, i);
      }
    }
  }

  lemma SamePixel(rgba: seq<byte>, m: nat, colour: byte, samples: seq<byte>, palette: seq<byte>, transparency: seq<byte>,
                  i: nat)
    requires 4 * i + 4 <= m <= |rgba|
    ensures Coloured(rgba[..m], colour, samples, palette, transparency, i) ==
              Coloured(rgba, colour, samples, palette, transparency, i)
  {
  }

  // ---- decoding -----------------------------------------------------------------------------

  /** The samples of the image are the bytes restored from the inflated stream, and its pixels are
      those samples' colours. */
  ghost predicate Shows(image: Image, raw: seq<byte>, samples: seq<byte>, header: Header, n: nat, found: Chunks) {
    && Supported(header.colour, n)
    && image.width == header.width && image.height == header.height
    && |raw| >= (header.width * n + 1) * header.height
    && RestoredFrom(raw, samples, header.width * n, n, header.height)
    && (header.colour == 3 && header.width * header.height > 0 ==> found.palette.Some?)
    && AllColoured(image.data, header.colour, samples, OrEmpty(found.palette), OrEmpty(found.transparency),
                   header.width * header.height)
  }

  ghost predicate ShowsFrom(image: Image, raw: seq<byte>, found: Chunks)
    requires found.header.Some?
  {
    exists samples, n :: Shows(image, raw, samples, found.header.value, n, found)
  }

  lemma ChannelsIff(colour: byte, n: nat)
    ensures ChannelsFor(colour) == Some(n) <==> Supported(colour, n)
  {
  }

  lemma RgbaIff(samples: seq<byte>, n: nat, pixels: nat, colour: byte, found: Chunks, data: seq<byte>)
    requires Supported(colour, n) && n * pixels == |samples|
    ensures Rgba(samples, pixels, colour, found) == Ok(data) <==>
              && (colour == 3 && pixels > 0 ==> found.palette.Some?)
              && AllColoured(data, colour, samples, OrEmpty(found.palette), OrEmpty(found.transparency), pixels)
  {
    hide Pixels, AllColoured;
    PixelsIff(data, samples, n, pixels, colour, OrEmpty(found.palette), OrEmpty(found.transparency));
    if colour == 6 {
      CopiedPixels(samples, pixels, OrEmpty(found.palette), OrEmpty(found.transparency));
      assert samples[..4 * pixels] == samples;
    }
  }

  lemma {:induction false} CopiedPixels(samples: seq<byte>, pixels: nat, palette: seq<byte>, transparency: seq<byte>)
    requires 4 * pixels <= |samples|
    ensures Pixels(samples, pixels, 6, palette, transparency) == samples[..4 * pixels]
  {
    if pixels > 0 {
      CopiedPixels(samples, pixels - 1, palette, transparency);
      assert samples[..4 * pixels] == samples[..4 * pixels - 4] + samples[4 * pixels - 4..4 * pixels];
    }
  }

  /** The rows of a stream of the right size and type. */
  function LinesOf(raw: seq<byte>, header: Header, n: nat): Result<seq<byte>, nat>
    requires 0 < n && (header.width * n + 1) * header.height <= |raw|
  {
    OffsetIsProduct(header.width * n + 1, header.height);
    UnfilterImage(Scanlines(raw, header.width * n, header.height), header.width * n, n)
  }

  lemma UnpackOfLines(z: Zlib, found: Chunks, raw: seq<byte>, n: nat)
    requires found.header.Some? && found.idat != [] && z.inflate(Flat(found.idat)) == Some(raw)
    requires Supported(found.header.value.colour, n)
    ensures var h := found.header.value;
      if (h.width * n + 1) * h.height > |raw| || LinesOf(raw, h, n).Err? then Unpack(z, found).Err?
      else
        var samples := LinesOf(raw, h, n).value;
        && |samples| == n * (h.width * h.height)
        && Unpack(z, found) ==
             var data := Rgba(samples, h.width * h.height, h.colour, found);
             if data.Err? then Err(data.error) else Ok(Image(h.width, h.height, data.value))
  {
    hide UnfilterImage, Scanlines, Rgba, Flat, Offset;
    var h := found.header.value;
    OffsetIsProduct(h.width * n + 1, h.height);
    if (h.width * n + 1) * h.height <= |raw| {
      ImageSize(raw, h.width, h.height, n, h.width * n);
    }
  }

  lemma LinesIff(raw: seq<byte>, samples: seq<byte>, header: Header, n: nat)
    requires 0 < n && (header.width * n + 1) * header.height <= |raw|
    ensures LinesOf(raw, header, n) == Ok(samples) <==>
              RestoredFrom(raw, samples, header.width * n, n, header.height)
  {
    hide UnfilterImage, Scanlines, Offset, RestoredFrom;
    OffsetIsProduct(header.width * n + 1, header.height);
    StreamIff(raw, samples, header.width * n, n, header.height);
  }

  /** What the collected chunks decode to, and when they do. */
  lemma UnpackIff(z: Zlib, found: Chunks, image: Image)
    ensures Unpack(z, found) == Ok(image) <==>
              && found.header.Some? && found.idat != [] && z.inflate(Flat(found.idat)).Some?
              && ShowsFrom(image, z.inflate(Flat(found.idat)).value, found)
  {
    if found.header.Some? && found.idat != [] && z.inflate(Flat(found.idat)).Some? {
      var raw, colour := z.inflate(Flat(found.idat)).value, found.header.value.colour;
      if ChannelsFor(colour).Some? {
        ChannelsIff(colour, ChannelsFor(colour).value);
        hide Unpack, Flat;
        ShownIff(z, found, raw, ChannelsFor(colour).value, image);
      } else {
        forall n ensures !Supported(colour, n) {
          ChannelsIff(colour, n);
        }
      }
    }
  }

  lemma ShownIff(z: Zlib, found: Chunks, raw: seq<byte>, n: nat, image: Image)
    requires found.header.Some? && found.idat != [] && z.inflate(Flat(found.idat)) == Some(raw)
    requires Supported(found.header.value.colour, n)
    ensures Unpack(z, found) == Ok(image) <==> ShowsFrom(image, raw, found)
  {
    hide Unpack, Rgba, RestoredFrom, AllColoured, LinesOf, Flat;
    var h := found.header.value;
    UnpackOfLines(z, found, raw, n);
    if (h.width * n + 1) * h.height <= |raw| {
      if LinesOf(raw, h, n).Ok? {
        var samples := LinesOf(raw, h, n).value;
        LinesIff(raw, samples, h, n);
        RgbaIff(samples, n, h.width * h.height, h.colour, found, image.data);
        if Unpack(z, found) == Ok(image) {
          assert Shows(image, raw, samples, h, n, found);
        }
      }
      forall samples, m | Shows(image, raw, samples, h, m, found) ensures Unpack(z, found) == Ok(image) {
        assert m == n;
        LinesIff(raw, samples, h, n);
        RgbaIff(samples, n, h.width * h.height, h.colour, found, image.data);
      }
    }
  }

  /** The first row of a stream that has an unknown filter type. */
  ghost predicate FirstUnknown(raw: seq<byte>, stride: nat, height: nat, k: nat) {
    k < height && 0 < stride && FilterType(raw, stride, k) > 4 && forall y: nat :: y < k ==> FilterType(raw, stride, y) <= 4
  }

  lemma UnknownIff(raw: seq<byte>, header: Header, n: nat, k: nat)
    requires 0 < n && (header.width * n + 1) * header.height <= |raw|
    ensures LinesOf(raw, header, n) == Err(k) <==> FirstUnknown(raw, header.width * n, header.height, k)
  {
    hide UnfilterImage, Scanlines, Offset, FilterType;
    var stride := header.width * n;
    OffsetIsProduct(stride + 1, header.height);
    var lines := Scanlines(raw, stride, header.height);
    RefusedIff(lines, stride, n, k);
    forall y: nat | y < header.height ensures FilterType(raw, stride, y) == lines[y].filter {
      FilterInStream(raw, stride, header.height, y);
    }
  }

  /** Why collected chunks with a header and data are refused. */
  lemma RefusedFor(z: Zlib, found: Chunks, n: nat, k: nat)
    requires found.header.Some? && found.idat != [] && Supported(found.header.value.colour, n)
    ensures var r, h, inflated := Unpack(z, found), found.header.value, z.inflate(Flat(found.idat));
      && (r == Err(InflateFailed) <==> inflated.None?)
      && (inflated.Some? ==>
            var long := |inflated.value| >= (h.width * n + 1) * h.height;
            && (r == Err(TooShort) <==> !long)
            && (long ==> (r == Err(UnknownFilter(k)) <==> FirstUnknown(inflated.value, h.width * n, h.height, k)))
            && (r == Err(MissingPalette) ==> h.colour == 3 && found.palette.None? && h.width * h.height > 0)
            && (r.Ok? ==> h.colour != 3 || found.palette.Some? || h.width * h.height == 0))
  {
    hide UnfilterImage, Scanlines, Flat, Offset, FirstUnknown;
    var h := found.header.value;
    OffsetIsProduct(h.width * n + 1, h.height);
    if z.inflate(Flat(found.idat)).Some? {
      var raw := z.inflate(Flat(found.idat)).value;
      UnpackOfLines(z, found, raw, n);
      if (h.width * n + 1) * h.height <= |raw| {
        UnknownIff(raw, h, n, k);
      }
    }
  }

  /** The chunks hold the image. */
  ghost predicate Holds(z: Zlib, parts: seq<Part>, image: Image) {
    var header, idat := Last(parts, "IHDR"), Bodies(parts, "IDAT");
    && AllAccepted(Bodies(parts, "IHDR")) && header.Some? && Accepted(header.value)
    && idat != [] && z.inflate(Flat(idat)).Some?
    && ShowsFrom(image, z.inflate(Flat(idat)).value,
                 Chunks(Some(HeaderOf(header.value)), idat, Last(parts, "PLTE"), Last(parts, "tRNS")))
  }

  lemma LastHeader(parts: seq<Part>)
    requires AllAccepted(Bodies(parts, "IHDR"))
    ensures Last(parts, "IHDR").Some? ==> Accepted(Last(parts, "IHDR").value)
  {
    hide Bodies, Accepted;
  }

  lemma FoundFirst(found: Chunks, parts: seq<Part>)
    requires FoundAfter(found, NO_CHUNKS, parts) && AllAccepted(Bodies(parts, "IHDR"))
    ensures var header := Last(parts, "IHDR");
      && found.header == (if header.Some? && Accepted(header.value) then Some(HeaderOf(header.value)) else None)
      && found.idat == Bodies(parts, "IDAT")
      && found.palette == Last(parts, "PLTE") && found.transparency == Last(parts, "tRNS")
  {
    hide Bodies, Last, Accepted, HeaderOf;
  }

  /** Every buffer: it decodes exactly when it starts with the signature and its chunks hold an image,
      and then to that image. */
  lemma DecodeIff(z: Zlib, buf: seq<byte>, image: Image)
    ensures Decode(z, buf) == Ok(image) <==>
              |buf| >= 8 && buf[..8] == [137, 80, 78, 71, 13, 10, 26, 10] && Holds(z, Parts(buf, 8), image)
  {
    hide ReadChunks, Unpack, Parts, Bodies, Last, AllAccepted, Accepted, HeaderOf, ShowsFrom, Flat;
    if |buf| >= 8 && buf[..8] == [137, 80, 78, 71, 13, 10, 26, 10] {
      var parts := Parts(buf, 8);
      ChunksIff(buf, 8, NO_CHUNKS);
      if AllAccepted(Bodies(parts, "IHDR")) {
        LastHeader(parts);
        FoundFirst(ReadChunks(buf, 8, NO_CHUNKS).value, parts);
        UnpackIff(z, ReadChunks(buf, 8, NO_CHUNKS).value, image);
      }
    }
  }

  // ---- encoding -----------------------------------------------------------------------------

  /** At `at`, a chunk of this type and length, with the checksum of its type and body. */
  predicate HasChunk(png: seq<byte>, at: nat, text: string, length: nat) {
    && at + 12 + length <= |png|
    && BigEndian(png[at..at + 4]) == length
    && Spells(png[at + 4..at + 8], text)
    && BigEndian(png[at + 8 + length..at + 12 + length]) == Crc32Of(png[at + 4..at + 8 + length])
  }

  /** An 8-bit RGBA image of this size, not interlaced, with this compressed data, and nothing else. */
  predicate IsPng(png: seq<byte>, width: nat, height: nat, idat: seq<byte>) {
    && |png| == 57 + |idat|
    && png[..8] == [137, 80, 78, 71, 13, 10, 26, 10]
    && HasChunk(png, 8, "IHDR", 13)
    && BigEndian(png[16..20]) == width && BigEndian(png[20..24]) == height && png[24..29] == [8, 6, 0, 0, 0]
    && HasChunk(png, 33, "IDAT", |idat|) && png[41..41 + |idat|] == idat
    && HasChunk(png, 45 + |idat|, "IEND", 0)
  }

  lemma ChunkFields(png: seq<byte>, at: nat, kind: ChunkKind, text: string, body: seq<byte>)
    requires |body| < 0x1_0000_0000 && At(png, at, Chunk(kind, body)) && Spells(Name(kind), text)
    ensures HasChunk(png, at, text, |body|) && png[at + 8..at + 8 + |body|] == body
  {
    hide U32, Name, Crc32Of, BigEndian;
    var length, name, crc := U32(|body|), Name(kind), U32(Crc32Of(Name(kind) + body));
    AtSplit(png, at, length + name + body, crc);
    AtSplit(png, at, length, name + body);
    AtSplit(png, at, length + name, body);
    AtSplit(png, at, length, name);
    WrittenIsBigEndian(|body|);
    WrittenIsBigEndian(Crc32Of(name + body));
    assert (length + name) + body == length + (name + body);
    assert At(png, at + 4, name + body);
  }

  lemma RawIff(image: Image, filter: byte, raw: seq<byte>)
    requires |image.data| == image.width * image.height * 4 && (filter <= 2 || image.height == 0)
    ensures raw == RawOf(image, filter) <==> FilteredAs(raw, image.data, filter, image.width * 4, image.height)
  {
    hide FilterAll, Coded, Offset, ByteRestored, FilterType;
    DataSize(image);
    if image.height > 0 {
      hide FilteredAs;
      SameProduct(image);
      FilteredIff(raw, image.data, filter, image.width * 4, image.height);
    }
  }

  lemma SameProduct(image: Image)
    ensures image.width * image.height * 4 == image.width * 4 * image.height
  {
  }

  /** The stream of the image's filtered rows, compressed to what a chunk can hold. */
  ghost predicate Compressed(z: Zlib, image: Image, filter: byte, raw: seq<byte>) {
    FilteredAs(raw, image.data, filter, image.width * 4, image.height) && |z.deflate(raw)| < 0x1_0000_0000
  }

  /** Which images are encoded, and why another is not. */
  lemma EncodeIff(z: Zlib, image: Image, filter: byte)
    ensures var r, sized := Encode(z, image, filter), |image.data| == 4 * (image.width * image.height);
      && (r == Err(WrongLength) <==> !sized)
      && (r == Err(FilterNotImplemented) <==> sized && filter > 2 && image.height > 0)
      && (r.Ok? || r.error in {WrongLength, FilterNotImplemented, OutOfRange})
      && (r.Ok? <==>
            && sized && (filter <= 2 || image.height == 0)
            && image.width < 0x1_0000_0000 && image.height < 0x1_0000_0000
            && exists raw :: Compressed(z, image, filter, raw))
  {
    hide RawOf, FilteredAs, Chunk, HeaderBody;
    if |image.data| == image.width * image.height * 4 && (filter <= 2 || image.height == 0) {
      RawIff(image, filter, RawOf(image, filter));
      if |z.deflate(RawOf(image, filter))| < 0x1_0000_0000 {
        assert Compressed(z, image, filter, RawOf(image, filter));
      }
      forall raw | Compressed(z, image, filter, raw) ensures raw == RawOf(image, filter) {
        RawIff(image, filter, raw);
      }
    }
  }

  lemma HeaderFields(width: u32, height: u32)
    ensures var body := HeaderBody(width, height);
      BigEndian(body[..4]) == width && BigEndian(body[4..8]) == height && body[8..] == [8, 6, 0, 0, 0]
  {
    hide U32, BigEndian;
    WrittenIsBigEndian(width);
    WrittenIsBigEndian(height);
    var body := HeaderBody(width, height);
    assert body[..4] == U32(width) && body[4..8] == U32(height);
  }

  lemma PngFields(png: seq<byte>, width: u32, height: u32, idat: seq<byte>)
    requires |idat| < 0x1_0000_0000
    requires png == SIGNATURE + Chunk(IHDR, HeaderBody(width, height)) + Chunk(IDAT, idat) + Chunk(IEND, [])
    ensures IsPng(png, width, height, idat)
  {
    hide Chunk, HeaderBody, Name, HasChunk, BigEndian;
    var body := HeaderBody(width, height);
    WhereChunks(png, Chunk(IHDR, body), Chunk(IDAT, idat), Chunk(IEND, []));
    NamesSpelled();
    ChunkFields(png, 8, IHDR, "IHDR", body);
    ChunkFields(png, 33, IDAT, "IDAT", idat);
    ChunkFields(png, 45 + |idat|, IEND, "IEND", []);
    HeaderFields(width, height);
    assert png[16..20] == png[16..29][..4] && png[20..24] == png[16..29][4..8] && png[24..29] == png[16..29][8..];
  }

  /** What the encoding of an image holds. */
  lemma EncodingHolds(z: Zlib, image: Image, filter: byte)
    requires Encode(z, image, filter).Ok?
    ensures exists raw :: Compressed(z, image, filter, raw)
                       && IsPng(Encode(z, image, filter).value, image.width, image.height, z.deflate(raw))
  {
    hide *;
    Encoded(z, image, filter);
    var raw := RawOf(image, filter);
    RawIff(image, filter, raw);
    AreCompressed(z, image, filter, raw);
    PngFields(Encode(z, image, filter).value, image.width, image.height, z.deflate(raw));
  }

  lemma AreCompressed(z: Zlib, image: Image, filter: byte, raw: seq<byte>)
    requires FilteredAs(raw, image.data, filter, image.width * 4, image.height) && |z.deflate(raw)| < 0x1_0000_0000
    ensures Compressed(z, image, filter, raw)
  {
  }
}
