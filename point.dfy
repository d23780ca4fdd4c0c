/** LAS 1.2 point data records (formats 0 to 3) as libslas_append_point_data
    packs them, libslas_read_point_data unpacks them and
    libslas_update_point_data patches them.

    A record starts with the raw x, y and z (int32_t), the intensity, the
    returns byte, the classification byte, the scan angle rank, the user data
    and the point source id (20 bytes); format 1 adds the GPS time, format 2
    the red/green/blue triple and format 3 both, GPS time first. */
module LasPoint {
  import opened Bytes
  import opened ByteOrder
  import opened Doubles
  import opened LasHeader
  import opened LasErrors

  /** POINT_DATA_SIZE: the size of the stack buffer a record goes through. */
  const PointDataSize: nat := 34

  /** The four bit fields of the returns byte, as the uint8_t values of the
      C record. */
  datatype Returns = Returns(number: bv8, count: bv8, edge: bv8, direction: bv8)

  /** The classification and its three flags. */
  datatype Class = Class(value: bv8, synthetic: bv8, keyPoint: bv8, withheld: bv8)

  datatype Rgb = Rgb(red: U16, green: U16, blue: U16)

  /** LIBSLAS_POINT_DATA with its coordinates of type C: the caller's doubles
      (as bit patterns) on the way in, the 32-bit raw words inside a record,
      and the real numbers `raw * scale + offset` on the way out. */
  datatype Point<C> = Point(
    x: C, y: C, z: C, intensity: U16, returnBits: Returns, classification: Class,
    scanAngleRank: I8, userData: Byte, pointSourceId: U16, gpsTime: U64, rgb: Rgb)

  predicate HasGps(fmt: Byte)
  {
    fmt == 1 || fmt == 3
  }

  predicate HasRgb(fmt: Byte)
  {
    fmt == 2 || fmt == 3
  }

  /** The record length libslas_create_las_file sets for a point format id,
      or none for an id it rejects. */
  function RecordLength(fmt: Byte): (r: Option<U16>)
  {
    match fmt
    case 0 => Some(20)
    case 1 => Some(28)
    case 2 => Some(26)
    case 3 => Some(34)
    case _ => None
  }

  /** The length covers exactly the fields the format carries, and the
      largest record fills the 34-byte buffer. */
  lemma RecordLengthCoversFields(fmt: Byte)
    ensures RecordLength(fmt).Some? <==> fmt <= 3
    ensures RecordLength(fmt).Some? ==>
      RecordLength(fmt).value == 20 + (if HasGps(fmt) then 8 else 0) + (if HasRgb(fmt) then 6 else 0) <= PointDataSize
  {
  }

  // ---- The returns and classification bytes.

  /** `rets = return_number | number_of_returns << 3 | edge << 6 | direction << 7`,
      truncated to the eight bits of the uint8_t. */
  function PackReturns(r: Returns): bv8
  {
    r.number | (r.count << 3) | (r.edge << 6) | (r.direction << 7)
  }

  /** The masks libslas_read_point_data applies: 0x03, 0x38, 0x40, 0x80. */
  function UnpackReturns(v: bv8): (r: Returns)
    ensures r.number < 4 && r.count < 8 && r.edge < 2 && r.direction < 2
  {
    Returns(v & 0x03, (v & 0x38) >> 3, (v & 0x40) >> 6, (v & 0x80) >> 7)
  }

  /** `cls = classification | withheld << 7 | key_point << 6 | synthetic << 5`. */
  function PackClass(c: Class): bv8
  {
    c.value | (c.withheld << 7) | (c.keyPoint << 6) | (c.synthetic << 5)
  }

  /** The masks 0x1f, 0x20, 0x40 and 0x80. */
  function UnpackClass(v: bv8): (c: Class)
    ensures c.value < 32 && c.synthetic < 2 && c.keyPoint < 2 && c.withheld < 2
  {
    Class(v & 0x1f, (v & 0x20) >> 5, (v & 0x40) >> 6, (v & 0x80) >> 7)
  }

  /** The return fields come back unchanged when each fits its field and the
      return number fits in two bits; a return number of 4 to 7 comes back 4
      less, because the read mask 0x03 drops the third bit the writer set. */
  lemma ReturnsRoundTrip(r: Returns)
    requires r.number < 8 && r.count < 8 && r.edge < 2 && r.direction < 2
    ensures UnpackReturns(PackReturns(r)) == if r.number < 4 then r else r.(number := r.number - 4)
  {
  }

  /** Every byte except its bit 2 survives unpacking and packing again. */
  lemma PackUnpackReturns(v: bv8)
    ensures PackReturns(UnpackReturns(v)) == v & 0xFB
  {
  }

  /** Each classification field fits its bits: it comes back unchanged. */
  lemma ClassRoundTrip(c: Class)
    requires c.value < 32 && c.synthetic < 2 && c.keyPoint < 2 && c.withheld < 2
    ensures UnpackClass(PackClass(c)) == c
  {
  }

  /** The classification byte is covered by its four fields: every byte
      survives unpacking and packing again. */
  lemma PackUnpackClass(v: bv8)
    ensures PackClass(UnpackClass(v)) == v
  {
  }

  // ---- Records.

  function PackRgb(c: Rgb, host: Endian): (b: seq<Byte>)
    ensures |b| == 6
  {
    Put16(c.red, host) + Put16(c.green, host) + Put16(c.blue, host)
  }

  function UnpackRgb(b: seq<Byte>, host: Endian): Rgb
    requires |b| == 6
  {
    Rgb(Get16(b[0..2], host), Get16(b[2..4], host), Get16(b[4..6], host))
  }

  lemma UnpackPackRgb(c: Rgb, host: Endian)
    ensures UnpackRgb(PackRgb(c, host), host) == c
  {
    var b := PackRgb(c, host);
    assert b[0..2] == Put16(c.red, host);
    assert b[2..4] == Put16(c.green, host);
    assert b[4..6] == Put16(c.blue, host);
    Get16Put16(c.red, host);
    Get16Put16(c.green, host);
    Get16Put16(c.blue, host);
  }

  /** The 20 bytes every format starts with. */
  function PackBase(q: Point<U32>, host: Endian): (b: seq<Byte>)
    ensures |b| == 20
    ensures b[14] == PackReturns(q.returnBits) as int && b[15] == PackClass(q.classification) as int
    ensures b[17] == q.userData
  {
    Put32(q.x, host) + Put32(q.y, host) + Put32(q.z, host) + Put16(q.intensity, host)
      + [PackReturns(q.returnBits) as int, PackClass(q.classification) as int, Wrap8(q.scanAngleRank), q.userData]
      + Put16(q.pointSourceId, host)
  }

  /** The record libslas_append_point_data writes: the common 20 bytes, then
      the GPS time and/or the colour as the format asks. */
  function EncodeRecord(q: Point<U32>, fmt: Byte, host: Endian): (b: seq<Byte>)
    ensures |b| == 20 + (if HasGps(fmt) then 8 else 0) + (if HasRgb(fmt) then 6 else 0)
  {
    PackBase(q, host)
      + (if HasGps(fmt) then Put64(q.gpsTime, host) else [])
      + (if HasRgb(fmt) then PackRgb(q.rgb, host) else [])
  }

  /** The zero-filled 34-byte buffer fread fills with the record's bytes (a
      record longer than that is kept whole). */
  function Buffer(b: seq<Byte>): (d: seq<Byte>)
    ensures |d| >= PointDataSize && |d| >= |b| && d[..|b|] == b
  {
    if |b| >= PointDataSize then b else b + Zeros(PointDataSize - |b|)
  }

  /** The swaps libslas_read_point_data applies to a record read on a
      big-endian host. */
  function SwapRaw(q: Point<U32>, fmt: Byte, host: Endian): Point<U32>
  {
    q.(x := SwapU32(q.x), y := SwapU32(q.y), z := SwapU32(q.z),
       intensity := SwapU16(q.intensity, host), pointSourceId := SwapU16(q.pointSourceId, host),
       gpsTime := if HasGps(fmt) then SwapF64(q.gpsTime, host) else q.gpsTime,
       rgb := if HasRgb(fmt) then Rgb(SwapU16(q.rgb.red, host), SwapU16(q.rgb.green, host), SwapU16(q.rgb.blue, host)) else q.rgb)
  }

  /** The fields libslas_read_point_data copies out of the buffer, with the
      raw coordinates still as 32-bit words; the fields the format does not
      carry keep the zero the caller's record was cleared to. */
  function DecodeRecord(d: seq<Byte>, fmt: Byte, swap: bool, host: Endian): (q: Point<U32>)
    requires |d| >= PointDataSize
  {
    var gpsAt := 20;
    var rgbAt := if fmt == 3 then 28 else 20;
    var q := Point(
      Get32(d[0..4], host), Get32(d[4..8], host), Get32(d[8..12], host), Get16(d[12..14], host),
      UnpackReturns(d[14] as bv8), UnpackClass(d[15] as bv8), Signed8(d[16]), d[17], Get16(d[18..20], host),
      if HasGps(fmt) then Get64(d[gpsAt..gpsAt + 8], host) else 0,
      if HasRgb(fmt) then UnpackRgb(d[rgbAt..rgbAt + 6], host) else Rgb(0, 0, 0));
    if swap then SwapRaw(q, fmt, host) else q
  }

  /** What a record written by EncodeRecord reads back as: the bit fields
      through their masks, and zero for what the format does not carry. */
  function Stored(q: Point<U32>, fmt: Byte): Point<U32>
  {
    q.(returnBits := UnpackReturns(PackReturns(q.returnBits)), classification := UnpackClass(PackClass(q.classification)),
       gpsTime := if HasGps(fmt) then q.gpsTime else 0,
       rgb := if HasRgb(fmt) then q.rgb else Rgb(0, 0, 0))
  }

  lemma DecodeBase(q: Point<U32>, d: seq<Byte>, host: Endian)
    requires |d| >= 20 && d[..20] == PackBase(q, host)
    ensures Get32(d[0..4], host) == q.x && Get32(d[4..8], host) == q.y && Get32(d[8..12], host) == q.z
    ensures Get16(d[12..14], host) == q.intensity && Signed8(d[16]) == q.scanAngleRank
    ensures d[14] == PackReturns(q.returnBits) as int && d[15] == PackClass(q.classification) as int && d[17] == q.userData
    ensures Get16(d[18..20], host) == q.pointSourceId
  {
    var b := PackBase(q, host);
    assert d[0..4] == b[0..4] == Put32(q.x, host);
    assert d[4..8] == b[4..8] == Put32(q.y, host);
    assert d[8..12] == b[8..12] == Put32(q.z, host);
    assert d[12..14] == b[12..14] == Put16(q.intensity, host);
    assert d[16] == b[16] == Wrap8(q.scanAngleRank);
    assert d[18..20] == b[18..20] == Put16(q.pointSourceId, host);
    Get32Put32(q.x, host);
    Get32Put32(q.y, host);
    Get32Put32(q.z, host);
    Get16Put16(q.intensity, host);
    Get16Put16(q.pointSourceId, host);
  }

  /** Read after write with swapping off: a record written in one of the
      formats 0 to 3 reads back as what it stores. */
  lemma DecodeEncode(q: Point<U32>, fmt: Byte, host: Endian)
    requires fmt <= 3
    ensures DecodeRecord(Buffer(EncodeRecord(q, fmt, host)), fmt, false, host) == Stored(q, fmt)
  {
    var e := EncodeRecord(q, fmt, host);
    var d := Buffer(e);
    assert d[..20] == PackBase(q, host);
    DecodeBase(q, d, host);
    if HasGps(fmt) {
      assert d[20..28] == Put64(q.gpsTime, host);
      Get64Put64(q.gpsTime, host);
    }
    if HasRgb(fmt) {
      var at := if fmt == 3 then 28 else 20;
      assert d[at..at + 6] == PackRgb(q.rgb, host);
      UnpackPackRgb(q.rgb, host);
    }
  }

  /** Decoding looks at no byte past the record length of a format 0 to 3,
      so two buffers that agree on the record decode alike. */
  lemma DecodeReadsRecordOnly(d1: seq<Byte>, d2: seq<Byte>, fmt: Byte, swap: bool, host: Endian)
    requires |d1| >= PointDataSize && |d2| >= PointDataSize && fmt <= 3
    requires d1[..RecordLength(fmt).value] == d2[..RecordLength(fmt).value]
    ensures DecodeRecord(d1, fmt, swap, host) == DecodeRecord(d2, fmt, swap, host)
  {
    var n := RecordLength(fmt).value;
    assert forall i :: 0 <= i < n ==> d1[i] == d2[i] by {
      forall i | 0 <= i < n
        ensures d1[i] == d2[i]
      {
        assert d1[..n][i] == d2[..n][i];
      }
    }
    assert d1[0..4] == d2[0..4] && d1[4..8] == d2[4..8] && d1[8..12] == d2[8..12];
    assert d1[12..14] == d2[12..14] && d1[18..20] == d2[18..20];
    if HasGps(fmt) {
      assert d1[20..28] == d2[20..28];
    }
    if HasRgb(fmt) {
      var at := if fmt == 3 then 28 else 20;
      assert d1[at..at + 6] == d2[at..at + 6];
    }
  }

  // ---- Coordinates.

  /** `NINT64 ((v - offset) / scale)` stored into an int32_t. */
  function QuantiseCoord(v: U64, offset: U64, scale: U64): U32
  {
    Wrap32(Quantise(Value(v), Value(offset), Value(scale)))
  }

  /** `(double) raw * scale + offset`. */
  function DequantiseCoord(raw: U32, offset: U64, scale: U64): real
  {
    Dequantise(Signed32(raw), Value(offset), Value(scale))
  }

  /** A coordinate whose quantised value fits in an int32_t reads back within
      half a scale step of the value written. */
  lemma CoordRoundTrip(v: U64, offset: U64, scale: U64)
    requires Value(scale) > 0.0
    requires -0x8000_0000 <= Quantise(Value(v), Value(offset), Value(scale)) < 0x8000_0000
    ensures Value(v) - Value(scale) / 2.0 <= DequantiseCoord(QuantiseCoord(v, offset, scale), offset, scale)
    ensures DequantiseCoord(QuantiseCoord(v, offset, scale), offset, scale) <= Value(v) + Value(scale) / 2.0
  {
    Signed32OfWrap32(Quantise(Value(v), Value(offset), Value(scale)));
    QuantiseRoundTrip(Value(v), Value(offset), Value(scale));
  }

  /** The raw record libslas_append_point_data builds from the caller's point. */
  function Quantised(p: Point<U64>, s: Scales): Point<U32>
  {
    Point(QuantiseCoord(p.x, s.xOffset, s.xScale), QuantiseCoord(p.y, s.yOffset, s.yScale),
          QuantiseCoord(p.z, s.zOffset, s.zScale), p.intensity, p.returnBits, p.classification,
          p.scanAngleRank, p.userData, p.pointSourceId, p.gpsTime, p.rgb)
  }

  /** The point libslas_read_point_data hands back for a raw record. */
  function Dequantised(q: Point<U32>, s: Scales): Point<real>
  {
    Point(DequantiseCoord(q.x, s.xOffset, s.xScale), DequantiseCoord(q.y, s.yOffset, s.yScale),
          DequantiseCoord(q.z, s.zOffset, s.zScale), q.intensity, q.returnBits, q.classification,
          q.scanAngleRank, q.userData, q.pointSourceId, q.gpsTime, q.rgb)
  }

  // ---- libslas_update_point_data: the modifiable fields patched into a record.

  /** Where the colour goes: after the GPS time in format 3, straight after
      the common fields otherwise. */
  function RgbOffset(fmt: Byte): nat
  {
    if fmt == 3 then 28 else 20
  }

  /** memcpy of b into d at offset at. */
  function Splice(d: seq<Byte>, at: nat, b: seq<Byte>): (r: seq<Byte>)
    requires at + |b| <= |d|
    ensures |r| == |d| && r[at..at + |b|] == b
    ensures forall i :: 0 <= i < |d| && !(at <= i < at + |b|) ==> r[i] == d[i]
  {
    d[..at] + b + d[at + |b|..]
  }

  /** The record after the patch: classification byte at 15, user data at
      17, point source id at 18 and, for a format id above 1, the colour. */
  function Patched<C>(d: seq<Byte>, p: Point<C>, fmt: Byte, swap: bool, host: Endian): (r: seq<Byte>)
    requires |d| >= PointDataSize
    ensures |r| == |d|
  {
    var psid := if swap then SwapU16(p.pointSourceId, host) else p.pointSourceId;
    var c := if swap then Rgb(SwapU16(p.rgb.red, host), SwapU16(p.rgb.green, host), SwapU16(p.rgb.blue, host)) else p.rgb;
    var a := Splice(d[15 := PackClass(p.classification) as int][17 := p.userData], 18, Put16(psid, host));
    if fmt > 1 then Splice(a, RgbOffset(fmt), PackRgb(c, host)) else a
  }

  /** The bytes the patch rewrites, and those it leaves alone. */
  lemma PatchedBytes<C>(d: seq<Byte>, p: Point<C>, fmt: Byte, swap: bool, host: Endian, psid: U16, c: Rgb)
    requires |d| >= PointDataSize
    requires psid == if swap then SwapU16(p.pointSourceId, host) else p.pointSourceId
    requires c == if swap then Rgb(SwapU16(p.rgb.red, host), SwapU16(p.rgb.green, host), SwapU16(p.rgb.blue, host)) else p.rgb
    ensures var e := Patched(d, p, fmt, swap, host);
      e[0..4] == d[0..4] && e[4..8] == d[4..8] && e[8..12] == d[8..12] && e[12..14] == d[12..14] &&
      e[14] == d[14] && e[15] == PackClass(p.classification) as int && e[16] == d[16] && e[17] == p.userData &&
      e[18..20] == Put16(psid, host) &&
      (HasGps(fmt) ==> e[20..28] == d[20..28]) &&
      (HasRgb(fmt) ==> e[RgbOffset(fmt)..RgbOffset(fmt) + 6] == PackRgb(c, host))
  {
  }

  /** What libslas_update_point_data promises: a record read back after the
      update carries the caller's classification (through its masks), user
      data, point source id and, in formats 2 and 3, colour; every other
      field reads as before. */
  lemma PatchedReadsBack<C>(d: seq<Byte>, p: Point<C>, fmt: Byte, swap: bool, host: Endian)
    requires |d| >= PointDataSize
    ensures var before := DecodeRecord(d, fmt, swap, host);
      DecodeRecord(Patched(d, p, fmt, swap, host), fmt, swap, host) ==
        before.(classification := UnpackClass(PackClass(p.classification)), userData := p.userData,
                pointSourceId := p.pointSourceId, rgb := if HasRgb(fmt) then p.rgb else before.rgb)
  {
    var psid := if swap then SwapU16(p.pointSourceId, host) else p.pointSourceId;
    var c := if swap then Rgb(SwapU16(p.rgb.red, host), SwapU16(p.rgb.green, host), SwapU16(p.rgb.blue, host)) else p.rgb;
    PatchedBytes(d, p, fmt, swap, host, psid, c);
    Get16Put16(psid, host);
    if HasRgb(fmt) {
      UnpackPackRgb(c, host);
    }
    if swap {
      SwapU16Twice(p.pointSourceId, host);
      SwapU16Twice(p.rgb.red, host);
      SwapU16Twice(p.rgb.green, host);
      SwapU16Twice(p.rgb.blue, host);
    }
  }

  /** The record bytes written back by an update (the patched buffer cut
      to the record length of a format 0 to 3) read as the patch promises. */
  lemma PatchedRecordReadsBack<C>(d: seq<Byte>, p: Point<C>, fmt: Byte, swap: bool, host: Endian)
    requires |d| >= PointDataSize && fmt <= 3
    ensures var before := DecodeRecord(d, fmt, swap, host);
      var e := Patched(d, p, fmt, swap, host)[..RecordLength(fmt).value];
      DecodeRecord(Buffer(e), fmt, swap, host) ==
        before.(classification := UnpackClass(PackClass(p.classification)), userData := p.userData,
                pointSourceId := p.pointSourceId, rgb := if HasRgb(fmt) then p.rgb else before.rgb)
  {
    var n := RecordLength(fmt).value;
    var e := Patched(d, p, fmt, swap, host);
    assert Buffer(e[..n])[..n] == e[..n];
    DecodeReadsRecordOnly(Buffer(e[..n]), e, fmt, swap, host);
    PatchedReadsBack(d, p, fmt, swap, host);
  }

  /** The colour memcpy, as three two-byte ones. */
  lemma SpliceRgb(d: seq<Byte>, at: nat, r: seq<Byte>, g: seq<Byte>, u: seq<Byte>)
    requires |r| == |g| == |u| == 2 && at + 6 <= |d|
    ensures Splice(d, at, r + g + u) == Splice(Splice(Splice(d, at, r), at + 2, g), at + 4, u)
  {
  }

  /** `memcpy (&data[at], &value, 2)`. */
  method Store2(data: array<Byte>, at: nat, b: seq<Byte>)
    requires |b| == 2 && at + 2 <= data.Length
    modifies data
    ensures data[..] == Splice(old(data[..]), at, b)
  {
    data[at], data[at + 1] := b[0], b[1];
  }

  /** The in-place memcpy sequence of libslas_update_point_data on the
      record buffer. */
  method PatchRecord<C>(data: array<Byte>, p: Point<C>, fmt: Byte, swap: bool, host: Endian)
    requires data.Length >= PointDataSize
    modifies data
    ensures data[..] == Patched(old(data[..]), p, fmt, swap, host)
  {
    data[15] := PackClass(p.classification) as int;
    data[17] := p.userData;
    var psid := p.pointSourceId;
    if swap {
      psid := SwapU16(psid, host);
    }
    Store2(data, 18, Put16(psid, host));
    ghost var a := data[..];
    if fmt > 1 {
      var red, green, blue := p.rgb.red, p.rgb.green, p.rgb.blue;
      if swap {
        red, green, blue := SwapU16(red, host), SwapU16(green, host), SwapU16(blue, host);
      }
      var at := RgbOffset(fmt);
      Store2(data, at, Put16(red, host));
      Store2(data, at + 2, Put16(green, host));
      Store2(data, at + 4, Put16(blue, host));
      SpliceRgb(a, at, Put16(red, host), Put16(green, host), Put16(blue, host));
    }
  }
}
