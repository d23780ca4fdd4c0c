/** The LAS 1.2 public header block as libslas packs it in
    libslas_write_header and unpacks it in libslas_read_header, and the
    in-place byte swap libslas_swap_las_header applies on big-endian hosts.

    LIBSLAS_HEADER is one flat struct; the model keeps its fields in the same
    order but groups consecutive ones into six records, one per stretch of the
    227-byte buffer, so that each stretch is packed and cut on its own:
      identity (offset 0): signature, file source id, global encoding, the
        four GUID parts, version major and minor;
      text (26): system identifier, generating software;
      layout (90): creation day and year, header size, offset to point data,
        number of VLRs, point format, record length, point count;
      tally (111): the five counts by return;
      scales (131): x/y/z scale factors, x/y/z offsets;
      bounds (179): max x, min x, max y, min y, max z, min z. */
module LasHeader {
  import opened Bytes
  import opened ByteOrder
  import opened LasErrors

  /** LIBSLAS_HEADER_SIZE. */
  const HeaderSize: nat := 227

  type Tally = s: seq<U32> | |s| == 5 witness [0, 0, 0, 0, 0]

  /** GUID_data_4[9] is kept as the 8 bytes that travel to and from the file. */
  datatype Ident = Ident(
    fileSourceId: U16, globalEncoding: U16,
    guid1: U32, guid2: U16, guid3: U16, guid4: Bytes8,
    versionMajor: Byte, versionMinor: Byte)

  /** system_id[33] and generating_software[33], as their first 32 bytes. */
  datatype Text = Text(systemId: Bytes32, generatingSoftware: Bytes32)

  datatype Geometry = Geometry(
    creationDay: U16, creationYear: U16, headerSize: U16,
    offsetToPointData: U32, numberOfVlrs: U32,
    pointFormat: Byte, recordLength: U16, numberOfPoints: U32)

  /** Doubles are kept as their bit patterns. */
  datatype Scales = Scales(xScale: U64, yScale: U64, zScale: U64, xOffset: U64, yOffset: U64, zOffset: U64)

  datatype Bounds = Bounds(maxX: U64, minX: U64, maxY: U64, minY: U64, maxZ: U64, minZ: U64)

  datatype Header = Header(
    ident: Ident, text: Text, geometry: Geometry, pointsByReturn: Tally,
    scales: Scales, bounds: Bounds)

  /** "LASF". */
  const Signature: seq<Byte> := [0x4C, 0x41, 0x53, 0x46]

  /** memcpy of a 2-, 4- or 8-byte value into a buffer, and back. */
  function Put16(v: U16, host: Endian): (b: seq<Byte>)
    ensures |b| == 2
  {
    ToMem(v, 2, host)
  }

  function Put32(v: U32, host: Endian): (b: seq<Byte>)
    ensures |b| == 4
  {
    ToMem(v, 4, host)
  }

  function Put64(v: U64, host: Endian): (b: seq<Byte>)
    ensures |b| == 8
  {
    ToMem(v, 8, host)
  }

  function Get16(b: seq<Byte>, host: Endian): U16
    requires |b| == 2
  {
    assert Pow256(2) == 0x1_0000;
    FromMem(b, host)
  }

  function Get32(b: seq<Byte>, host: Endian): U32
    requires |b| == 4
  {
    assert Pow256(4) == 0x1_0000_0000;
    FromMem(b, host)
  }

  function Get64(b: seq<Byte>, host: Endian): U64
    requires |b| == 8
  {
    assert Pow256(8) == 0x1_0000_0000_0000_0000;
    FromMem(b, host)
  }

  lemma Get16Put16(v: U16, host: Endian)
    ensures Get16(Put16(v, host), host) == v
  {
    MemRoundTrip(v, 2, host);
  }

  lemma Get32Put32(v: U32, host: Endian)
    ensures Get32(Put32(v, host), host) == v
  {
    assert Pow256(4) == 0x1_0000_0000;
    MemRoundTrip(v, 4, host);
  }

  lemma Get64Put64(v: U64, host: Endian)
    ensures Get64(Put64(v, host), host) == v
  {
    assert Pow256(8) == 0x1_0000_0000_0000_0000;
    MemRoundTrip(v, 8, host);
  }

  // ---- The six stretches: the bytes memcpy puts in each, and the fields it takes out.

  function PackIdent(i: Ident, host: Endian): (b: seq<Byte>)
    ensures |b| == 26
    ensures b[..4] == Signature && b[24] == i.versionMajor && b[25] == i.versionMinor
  {
    Signature + Put16(i.fileSourceId, host) + Put16(i.globalEncoding, host) + Put32(i.guid1, host)
      + Put16(i.guid2, host) + Put16(i.guid3, host) + i.guid4 + [i.versionMajor, i.versionMinor]
  }

  function UnpackIdent(b: seq<Byte>, host: Endian): Ident
    requires |b| == 26
  {
    Ident(Get16(b[4..6], host), Get16(b[6..8], host), Get32(b[8..12], host),
          Get16(b[12..14], host), Get16(b[14..16], host), b[16..24], b[24], b[25])
  }

  function PackText(t: Text): (b: seq<Byte>)
    ensures |b| == 64 && b[..32] == t.systemId && b[32..] == t.generatingSoftware
  {
    t.systemId + t.generatingSoftware
  }

  function UnpackText(b: seq<Byte>): Text
    requires |b| == 64
  {
    Text(b[..32], b[32..])
  }

  function PackGeometry(g: Geometry, host: Endian): (b: seq<Byte>)
    ensures |b| == 21
    ensures b[4..6] == Put16(g.headerSize, host) && b[6..10] == Put32(g.offsetToPointData, host)
    ensures b[14] == g.pointFormat && b[15..17] == Put16(g.recordLength, host)
    ensures b[17..] == Put32(g.numberOfPoints, host)
  {
    Put16(g.creationDay, host) + Put16(g.creationYear, host) + Put16(g.headerSize, host)
      + Put32(g.offsetToPointData, host) + Put32(g.numberOfVlrs, host) + [g.pointFormat]
      + Put16(g.recordLength, host) + Put32(g.numberOfPoints, host)
  }

  function UnpackGeometry(b: seq<Byte>, host: Endian): Geometry
    requires |b| == 21
  {
    Geometry(Get16(b[0..2], host), Get16(b[2..4], host), Get16(b[4..6], host),
             Get32(b[6..10], host), Get32(b[10..14], host), b[14],
             Get16(b[15..17], host), Get32(b[17..21], host))
  }

  function PackTally(t: Tally, host: Endian): (b: seq<Byte>)
    ensures |b| == 20
  {
    Put32(t[0], host) + Put32(t[1], host) + Put32(t[2], host) + Put32(t[3], host) + Put32(t[4], host)
  }

  function UnpackTally(b: seq<Byte>, host: Endian): Tally
    requires |b| == 20
  {
    [Get32(b[0..4], host), Get32(b[4..8], host), Get32(b[8..12], host),
     Get32(b[12..16], host), Get32(b[16..20], host)]
  }

  /** Six doubles one after another: the scale/offset stretch and the bounds stretch. */
  function PackSix(d0: U64, d1: U64, d2: U64, d3: U64, d4: U64, d5: U64, host: Endian): (b: seq<Byte>)
    ensures |b| == 48
  {
    Put64(d0, host) + Put64(d1, host) + Put64(d2, host) + Put64(d3, host) + Put64(d4, host) + Put64(d5, host)
  }

  function PackScales(s: Scales, host: Endian): (b: seq<Byte>)
    ensures |b| == 48
  {
    PackSix(s.xScale, s.yScale, s.zScale, s.xOffset, s.yOffset, s.zOffset, host)
  }

  function UnpackScales(b: seq<Byte>, host: Endian): Scales
    requires |b| == 48
  {
    Scales(Get64(b[0..8], host), Get64(b[8..16], host), Get64(b[16..24], host),
           Get64(b[24..32], host), Get64(b[32..40], host), Get64(b[40..48], host))
  }

  function PackBounds(d: Bounds, host: Endian): (b: seq<Byte>)
    ensures |b| == 48
  {
    PackSix(d.maxX, d.minX, d.maxY, d.minY, d.maxZ, d.minZ, host)
  }

  function UnpackBounds(b: seq<Byte>, host: Endian): Bounds
    requires |b| == 48
  {
    Bounds(Get64(b[0..8], host), Get64(b[8..16], host), Get64(b[16..24], host),
           Get64(b[24..32], host), Get64(b[32..40], host), Get64(b[40..48], host))
  }

  /** The 227 bytes of a header in host byte order, as the memcpy sequence of
      libslas_write_header lays them out. */
  function Pack(h: Header, host: Endian): (b: seq<Byte>)
    ensures |b| == HeaderSize
    ensures b[..26] == PackIdent(h.ident, host) && b[26..90] == PackText(h.text)
    ensures b[90..111] == PackGeometry(h.geometry, host) && b[111..131] == PackTally(h.pointsByReturn, host)
    ensures b[131..179] == PackScales(h.scales, host) && b[179..] == PackBounds(h.bounds, host)
  {
    PackIdent(h.ident, host) + PackText(h.text) + PackGeometry(h.geometry, host)
      + PackTally(h.pointsByReturn, host) + PackScales(h.scales, host) + PackBounds(h.bounds, host)
  }

  /** The fields the memcpy sequence of libslas_read_header copies out. */
  function Unpack(b: seq<Byte>, host: Endian): Header
    requires |b| == HeaderSize
  {
    Header(UnpackIdent(b[..26], host), UnpackText(b[26..90]), UnpackGeometry(b[90..111], host),
           UnpackTally(b[111..131], host), UnpackScales(b[131..179], host), UnpackBounds(b[179..], host))
  }

  // ---- libslas_swap_las_header

  /** Every multi-byte identity field is reversed except file_source_id,
      which the source leaves out. */
  function SwapIdent(i: Ident, host: Endian): Ident
  {
    i.(globalEncoding := SwapU16(i.globalEncoding, host), guid1 := SwapU32(i.guid1),
       guid2 := SwapU16(i.guid2, host), guid3 := SwapU16(i.guid3, host))
  }

  function SwapGeometry(g: Geometry, host: Endian): Geometry
  {
    g.(creationDay := SwapU16(g.creationDay, host), creationYear := SwapU16(g.creationYear, host),
       headerSize := SwapU16(g.headerSize, host), offsetToPointData := SwapU32(g.offsetToPointData),
       numberOfVlrs := SwapU32(g.numberOfVlrs), recordLength := SwapU16(g.recordLength, host),
       numberOfPoints := SwapU32(g.numberOfPoints))
  }

  function SwapTally(t: Tally): Tally
  {
    [SwapU32(t[0]), SwapU32(t[1]), SwapU32(t[2]), SwapU32(t[3]), SwapU32(t[4])]
  }

  function SwapScales(s: Scales, host: Endian): Scales
  {
    Scales(SwapF64(s.xScale, host), SwapF64(s.yScale, host), SwapF64(s.zScale, host),
           SwapF64(s.xOffset, host), SwapF64(s.yOffset, host), SwapF64(s.zOffset, host))
  }

  function SwapBounds(b: Bounds, host: Endian): Bounds
  {
    Bounds(SwapF64(b.maxX, host), SwapF64(b.minX, host), SwapF64(b.maxY, host),
           SwapF64(b.minY, host), SwapF64(b.maxZ, host), SwapF64(b.minZ, host))
  }

  function SwapHeader(h: Header, host: Endian): (r: Header)
    ensures r.ident.fileSourceId == h.ident.fileSourceId
    ensures r.ident.versionMajor == h.ident.versionMajor && r.ident.versionMinor == h.ident.versionMinor
    ensures r.text == h.text && r.geometry.pointFormat == h.geometry.pointFormat
  {
    Header(SwapIdent(h.ident, host), h.text, SwapGeometry(h.geometry, host),
           SwapTally(h.pointsByReturn), SwapScales(h.scales, host), SwapBounds(h.bounds, host))
  }

  lemma SwapIdentTwice(i: Ident, host: Endian)
    ensures SwapIdent(SwapIdent(i, host), host) == i
  {
    SwapU16Twice(i.globalEncoding, host);
    SwapU32Twice(i.guid1);
    SwapU16Twice(i.guid2, host);
    SwapU16Twice(i.guid3, host);
  }

  lemma SwapGeometryTwice(g: Geometry, host: Endian)
    ensures SwapGeometry(SwapGeometry(g, host), host) == g
  {
    SwapU16Twice(g.creationDay, host);
    SwapU16Twice(g.creationYear, host);
    SwapU16Twice(g.headerSize, host);
    SwapU32Twice(g.offsetToPointData);
    SwapU32Twice(g.numberOfVlrs);
    SwapU16Twice(g.recordLength, host);
    SwapU32Twice(g.numberOfPoints);
  }

  lemma SwapTallyTwice(t: Tally)
    ensures SwapTally(SwapTally(t)) == t
  {
    SwapU32Twice(t[0]);
    SwapU32Twice(t[1]);
    SwapU32Twice(t[2]);
    SwapU32Twice(t[3]);
    SwapU32Twice(t[4]);
  }

  lemma SwapDoublesTwice(s: Scales, b: Bounds, host: Endian)
    ensures SwapScales(SwapScales(s, host), host) == s
    ensures SwapBounds(SwapBounds(b, host), host) == b
  {
    SwapF64Twice(s.xScale, host);
    SwapF64Twice(s.yScale, host);
    SwapF64Twice(s.zScale, host);
    SwapF64Twice(s.xOffset, host);
    SwapF64Twice(s.yOffset, host);
    SwapF64Twice(s.zOffset, host);
    SwapF64Twice(b.maxX, host);
    SwapF64Twice(b.minX, host);
    SwapF64Twice(b.maxY, host);
    SwapF64Twice(b.minY, host);
    SwapF64Twice(b.maxZ, host);
    SwapF64Twice(b.minZ, host);
  }

  /** Swapping the header twice restores it. */
  lemma SwapHeaderTwice(h: Header, host: Endian)
    ensures SwapHeader(SwapHeader(h, host), host) == h
  {
    SwapIdentTwice(h.ident, host);
    SwapGeometryTwice(h.geometry, host);
    SwapTallyTwice(h.pointsByReturn);
    SwapDoublesTwice(h.scales, h.bounds, host);
  }

  // ---- libslas_write_header and libslas_read_header

  /** The 227-byte buffer libslas_write_header writes: the header after the
      optional swap, packed in host byte order. */
  function PackHeader(h: Header, host: Endian, swap: bool): (b: seq<Byte>)
    ensures |b| == HeaderSize
  {
    Pack(if swap then SwapHeader(h, host) else h, host)
  }

  /** The header libslas_read_header leaves in the session once it has
      swapped (or not). */
  function Received(b: seq<Byte>, host: Endian, swap: bool): (h: Header)
    requires |b| == HeaderSize
    ensures h.ident.versionMajor == b[24] && h.ident.versionMinor == b[25]
  {
    var h := Unpack(b, host);
    if swap then SwapHeader(h, host) else h
  }

  /** libslas_read_header after the 227 bytes have been read: the signature
      check, the unpacking, the optional swap and the version check. */
  function DecodeHeader(b: seq<Byte>, host: Endian, swap: bool): (r: Result<Header>)
    requires |b| == HeaderSize
  {
    if b[..4] != Signature then Err(NotLasFileError)
    else
      var h := Received(b, host, swap);
      if h.ident.versionMajor == 1 && h.ident.versionMinor > 2 then Err(IncorrectVersionError)
      else Ok(h)
  }

  lemma UnpackPackIdent(i: Ident, host: Endian)
    ensures UnpackIdent(PackIdent(i, host), host) == i
  {
    var b := PackIdent(i, host);
    assert b[4..6] == Put16(i.fileSourceId, host);
    assert b[6..8] == Put16(i.globalEncoding, host);
    assert b[8..12] == Put32(i.guid1, host);
    assert b[12..14] == Put16(i.guid2, host);
    assert b[14..16] == Put16(i.guid3, host);
    assert b[16..24] == i.guid4;
    Get16Put16(i.fileSourceId, host);
    Get16Put16(i.globalEncoding, host);
    Get32Put32(i.guid1, host);
    Get16Put16(i.guid2, host);
    Get16Put16(i.guid3, host);
  }

  lemma UnpackPackGeometry(g: Geometry, host: Endian)
    ensures UnpackGeometry(PackGeometry(g, host), host) == g
  {
    var b := PackGeometry(g, host);
    assert b[0..2] == Put16(g.creationDay, host);
    assert b[2..4] == Put16(g.creationYear, host);
    assert b[10..14] == Put32(g.numberOfVlrs, host);
    assert b[17..21] == b[17..];
    Get16Put16(g.creationDay, host);
    Get16Put16(g.creationYear, host);
    Get16Put16(g.headerSize, host);
    Get32Put32(g.offsetToPointData, host);
    Get32Put32(g.numberOfVlrs, host);
    Get16Put16(g.recordLength, host);
    Get32Put32(g.numberOfPoints, host);
  }

  lemma UnpackPackTally(t: Tally, host: Endian)
    ensures UnpackTally(PackTally(t, host), host) == t
  {
    var b := PackTally(t, host);
    assert b[0..4] == Put32(t[0], host);
    assert b[4..8] == Put32(t[1], host);
    assert b[8..12] == Put32(t[2], host);
    assert b[12..16] == Put32(t[3], host);
    assert b[16..20] == Put32(t[4], host);
    Get32Put32(t[0], host);
    Get32Put32(t[1], host);
    Get32Put32(t[2], host);
    Get32Put32(t[3], host);
    Get32Put32(t[4], host);
  }

  lemma PackSixPieces(d0: U64, d1: U64, d2: U64, d3: U64, d4: U64, d5: U64, host: Endian)
    ensures var b := PackSix(d0, d1, d2, d3, d4, d5, host);
      Get64(b[0..8], host) == d0 && Get64(b[8..16], host) == d1 && Get64(b[16..24], host) == d2 &&
      Get64(b[24..32], host) == d3 && Get64(b[32..40], host) == d4 && Get64(b[40..48], host) == d5
  {
    var b := PackSix(d0, d1, d2, d3, d4, d5, host);
    var a := Put64(d0, host) + Put64(d1, host) + Put64(d2, host) + Put64(d3, host) + Put64(d4, host);
    assert b == a + Put64(d5, host) && |a| == 40;
    assert b[0..8] == Put64(d0, host);
    assert b[8..16] == Put64(d1, host);
    assert b[16..24] == Put64(d2, host);
    assert b[24..32] == Put64(d3, host);
    assert b[32..40] == Put64(d4, host);
    assert b[40..48] == Put64(d5, host);
    Get64Put64(d0, host);
    Get64Put64(d1, host);
    Get64Put64(d2, host);
    Get64Put64(d3, host);
    Get64Put64(d4, host);
    Get64Put64(d5, host);
  }

  /** Unpacking a packed header gives back every field, in either host byte order. */
  lemma UnpackPack(h: Header, host: Endian)
    ensures Unpack(Pack(h, host), host) == h
  {
    var b := Pack(h, host);
    UnpackPackIdent(h.ident, host);
    UnpackPackGeometry(h.geometry, host);
    UnpackPackTally(h.pointsByReturn, host);
    var s, d := h.scales, h.bounds;
    PackSixPieces(s.xScale, s.yScale, s.zScale, s.xOffset, s.yOffset, s.zOffset, host);
    PackSixPieces(d.maxX, d.minX, d.maxY, d.minY, d.maxZ, d.minZ, host);
  }

  /** What the reader receives from a buffer the writer packed on the same
      host with the same swap setting is what the writer was given: on a
      big-endian host the reader's swap undoes the writer's. */
  lemma ReceivedPacked(h: Header, host: Endian, swap: bool)
    ensures Received(PackHeader(h, host, swap), host, swap) == h
  {
    if swap {
      UnpackPack(SwapHeader(h, host), host);
      SwapHeaderTwice(h, host);
    } else {
      UnpackPack(h, host);
    }
  }

  /** Read after write on the same host: every field the writer packed comes
      back, and the version check is the only way the read can fail. */
  lemma ReadAfterWrite(h: Header, host: Endian, swap: bool)
    ensures DecodeHeader(PackHeader(h, host, swap), host, swap) ==
      if h.ident.versionMajor == 1 && h.ident.versionMinor > 2 then Err(IncorrectVersionError) else Ok(h)
  {
    var b := PackHeader(h, host, swap);
    assert b[..4] == b[..26][..4];
    ReceivedPacked(h, host, swap);
  }

  /** A buffer packed without swapping on a big-endian host and read there
      with swapping on comes back with every swapped field reversed; the
      version bytes are not swapped, so only the version check can fail. */
  lemma UnswappedWriteSwappedRead(h: Header)
    ensures DecodeHeader(PackHeader(h, Big, false), Big, true) ==
      if h.ident.versionMajor == 1 && h.ident.versionMinor > 2 then Err(IncorrectVersionError) else Ok(SwapHeader(h, Big))
  {
    var b := PackHeader(h, Big, false);
    assert b[..4] == b[..26][..4];
    UnpackPack(h, Big);
  }

  /** Where the fields the rest of the library relies on land in the
      buffer: the version at 24-25, header size at 94, offset to point data
      at 96, point format at 104, record length at 105 and point count at 107. */
  lemma PackedFields(h: Header, host: Endian)
    ensures var b := Pack(h, host);
      b[..4] == Signature && b[24] == h.ident.versionMajor && b[25] == h.ident.versionMinor &&
      b[94..96] == Put16(h.geometry.headerSize, host) &&
      b[96..100] == Put32(h.geometry.offsetToPointData, host) &&
      b[104] == h.geometry.pointFormat &&
      b[105..107] == Put16(h.geometry.recordLength, host) &&
      b[107..111] == Put32(h.geometry.numberOfPoints, host)
  {
    var b := Pack(h, host);
    var g := b[90..111];
    assert b[..4] == b[..26][..4];
    assert b[24] == b[..26][24] && b[25] == b[..26][25];
    assert b[94..96] == g[4..6];
    assert b[96..100] == g[6..10];
    assert b[104] == g[14];
    assert b[105..107] == g[15..17];
    assert b[107..111] == g[17..];
  }

  /** The signature check: only a buffer that starts with "LASF" gets past it. */
  lemma NotLasFileExactly(b: seq<Byte>, host: Endian, swap: bool)
    requires |b| == HeaderSize
    ensures DecodeHeader(b, host, swap) == Err(NotLasFileError) <==> b[..4] != Signature
  {
  }

  /** The version check reads bytes 24 and 25 (one byte each, so swapping
      does not touch them): it rejects exactly major 1 with minor above 2. */
  lemma IncorrectVersionExactly(b: seq<Byte>, host: Endian, swap: bool)
    requires |b| == HeaderSize && b[..4] == Signature
    ensures DecodeHeader(b, host, swap).Ok? <==> !(b[24] == 1 && b[25] > 2)
    ensures DecodeHeader(b, host, swap).Err? ==> DecodeHeader(b, host, swap).error == IncorrectVersionError
  {
  }

  /** The two checks together: a 227-byte buffer decodes exactly when it
      starts with "LASF" and is not major 1 with minor above 2 (so 2.0
      and 0.9 pass). */
  predicate Accepted(b: seq<Byte>)
    requires |b| == HeaderSize
  {
    b[..4] == Signature && !(b[24] == 1 && b[25] > 2)
  }

  lemma AcceptedExactly(b: seq<Byte>, host: Endian, swap: bool)
    requires |b| == HeaderSize
    ensures DecodeHeader(b, host, swap).Ok? <==> Accepted(b)
  {
    if b[..4] == Signature {
      IncorrectVersionExactly(b, host, swap);
    }
  }

  /** What a buffer that passes the checks decodes to. */
  lemma DecodedIsReceived(b: seq<Byte>, host: Endian, swap: bool)
    requires |b| == HeaderSize && DecodeHeader(b, host, swap).Ok?
    ensures DecodeHeader(b, host, swap).value == Received(b, host, swap)
  {
  }

  lemma BigThenSwap16(b: seq<Byte>)
    requires |b| == 2
    ensures SwapU16(Get16(b, Big), Big) == Get16(b, Little)
  {
    var v := Get16(b, Big);
    var r := SwapU16(v, Big);
    MemOfFromMem(b, Big);
    ReverseReverse(LE(v, 2));
    assert LE(v, 2) == Reverse(b);
    assert LE(r, 2) == b;
    FromLEOfLE(r, 2);
  }

  lemma BigThenSwap32(b: seq<Byte>)
    requires |b| == 4
    ensures SwapU32(Get32(b, Big)) == Get32(b, Little)
  {
    var v := Get32(b, Big);
    var r := SwapU32(v);
    MemOfFromMem(b, Big);
    ReverseReverse(LE(v, 4));
    assert LE(v, 4) == Reverse(b);
    assert LE(r, 4) == b;
    assert Pow256(4) == 0x1_0000_0000;
    FromLEOfLE(r, 4);
  }

  lemma BigThenSwap64(b: seq<Byte>)
    requires |b| == 8
    ensures SwapF64(Get64(b, Big), Big) == Get64(b, Little)
  {
    var v := Get64(b, Big);
    var r := SwapF64(v, Big);
    MemOfFromMem(b, Big);
    ReverseReverse(LE(v, 8));
    ReverseReverse(b);
    assert LE(v, 8) == Reverse(b);
    assert LE(r, 8) == b;
    assert Pow256(8) == 0x1_0000_0000_0000_0000;
    FromLEOfLE(r, 8);
  }

  lemma OpenedIdentIsLittleEndian(b: seq<Byte>)
    requires |b| == 26
    ensures var l := UnpackIdent(b, Little);
      SwapIdent(UnpackIdent(b, Big), Big) == l.(fileSourceId := SwapU16(l.fileSourceId, Big))
  {
    BigThenSwap16(b[4..6]);
    SwapU16Twice(Get16(b[4..6], Big), Big);
    BigThenSwap16(b[6..8]);
    BigThenSwap32(b[8..12]);
    BigThenSwap16(b[12..14]);
    BigThenSwap16(b[14..16]);
  }

  lemma OpenedGeometryIsLittleEndian(b: seq<Byte>)
    requires |b| == 21
    ensures SwapGeometry(UnpackGeometry(b, Big), Big) == UnpackGeometry(b, Little)
  {
    BigThenSwap16(b[0..2]);
    BigThenSwap16(b[2..4]);
    BigThenSwap16(b[4..6]);
    BigThenSwap32(b[6..10]);
    BigThenSwap32(b[10..14]);
    BigThenSwap16(b[15..17]);
    BigThenSwap32(b[17..21]);
  }

  lemma OpenedTallyIsLittleEndian(b: seq<Byte>)
    requires |b| == 20
    ensures SwapTally(UnpackTally(b, Big)) == UnpackTally(b, Little)
  {
    BigThenSwap32(b[0..4]);
    BigThenSwap32(b[4..8]);
    BigThenSwap32(b[8..12]);
    BigThenSwap32(b[12..16]);
    BigThenSwap32(b[16..20]);
  }

  lemma OpenedDoublesAreLittleEndian(b: seq<Byte>)
    requires |b| == 48
    ensures SwapScales(UnpackScales(b, Big), Big) == UnpackScales(b, Little)
    ensures SwapBounds(UnpackBounds(b, Big), Big) == UnpackBounds(b, Little)
  {
    BigThenSwap64(b[0..8]);
    BigThenSwap64(b[8..16]);
    BigThenSwap64(b[16..24]);
    BigThenSwap64(b[24..32]);
    BigThenSwap64(b[32..40]);
    BigThenSwap64(b[40..48]);
  }

  /** A header read on a big-endian host (which swaps) equals the one read on
      a little-endian host (which does not) in every field but file_source_id,
      which the swap leaves byte-reversed. */
  lemma OpenedHeaderIsLittleEndian(b: seq<Byte>)
    requires |b| == HeaderSize
    ensures var l := Unpack(b, Little);
      SwapHeader(Unpack(b, Big), Big) == l.(ident := l.ident.(fileSourceId := SwapU16(l.ident.fileSourceId, Big)))
  {
    OpenedIdentIsLittleEndian(b[..26]);
    OpenedGeometryIsLittleEndian(b[90..111]);
    OpenedTallyIsLittleEndian(b[111..131]);
    OpenedDoublesAreLittleEndian(b[131..179]);
    OpenedDoublesAreLittleEndian(b[179..]);
  }
}
