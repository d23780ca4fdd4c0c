/** What the record operations promise: variable length records appended
    while a file is created and read back, point records appended, read
    and updated in place. */
module LasRecordFacts {
  import opened Bytes
  import opened Doubles
  import opened LasErrors
  import opened Stream
  import opened LasHeader
  import opened LasPoint
  import opened LasVlr
  import opened LasSession

  // ---- Variable length records

  /** Both VLR reads reject a record number outside [0, number of VLRs)
      before touching the stream, and neither changes the file or the
      header; a read that succeeds leaves the recorded position where the
      stream is. */
  lemma VlrRecordNumberChecked(s: Session, f: seq<Byte>, recnum: int, faults: Faults, host: Endian)
    ensures var r := VlrHeaderIn(s, f, recnum, faults, host);
      (r.result == Err(InvalidVlrRecordNumberError) <==> recnum < 0 || recnum >= s.header.geometry.numberOfVlrs)
      && r.file == f && r.session.header == s.header
      && (r.result.Ok? ==> !r.session.atEnd && r.session.pos == r.session.cursor)
    ensures var r := VlrDataIn(s, f, recnum, faults, host);
      (r.result == Err(InvalidVlrRecordNumberError) <==> recnum < 0 || recnum >= s.header.geometry.numberOfVlrs)
      && r.file == f && r.session.header == s.header
      && (r.result.Ok? ==> !r.session.atEnd && r.session.pos == r.session.cursor)
  {
  }

  /** Appending a VLR fails with VLR_APPEND_ERROR exactly when the file was
      not created by this session or a point has been appended; it succeeds
      when, besides, the seek (needed when the stream is not at the end) and
      the write succeed and the payload is not empty. Then the sub-header
      and payload land at the stream position when at_end is set (past the
      end of the file after a failed read), otherwise at the end of the
      file, and the offset to point data
      and the recorded position move past them (as a uint32_t). The number of
      VLRs in the header is never changed, and the session keeps its
      invariant. */
  lemma AppendVlrOutcome(s: Session, f: seq<Byte>, v: VlrHeader, data: seq<Byte>, faults: Faults, host: Endian)
    requires SessionOk(s, host) && v.recordLength <= |data|
    ensures var r := AppendVlrIn(s, f, v, data, faults, host);
      (r.result == Err(VlrAppendError) <==> !s.created || s.data)
      && (r.result.Ok? <==> s.created && !s.data && (s.atEnd || faults.seekOk) && faults.writeOk && v.recordLength > 0)
      && SessionOk(r.session, host)
      && r.session.header.geometry.numberOfVlrs == s.header.geometry.numberOfVlrs
      && r.session.header.(geometry := s.header.geometry) == s.header
    ensures var r := AppendVlrIn(s, f, v, data, faults, host);
      var c := if s.atEnd then s.cursor else |f|;
      var end := c + SubHeaderSize + v.recordLength;
      r.result.Ok? ==>
        r.file == Overwrite(f, c, Appended(v, data, host))
        && r.session.cursor == end && r.session.atEnd
        && r.session.pos == end % 0x1_0000_0000 == r.session.header.geometry.offsetToPointData
    ensures var r := AppendVlrIn(s, f, v, data, faults, host);
      r.result.Err? && r.file != f ==> v.recordLength == 0 && r.result == Err(VlrWriteError)
  {
  }

  /** The first VLR appended right after the header reads back as record
      0: its sub-header with the reserved field cleared, and its payload. */
  lemma {:induction false} FirstVlrReadsBack(s: Session, f: seq<Byte>, v: VlrHeader, data: seq<Byte>, ok: Faults, host: Endian)
    requires SessionOk(s, host) && s.created && !s.data && s.atEnd
    requires s.cursor == |f| == s.header.geometry.headerSize && s.header.geometry.numberOfVlrs >= 1
    requires 0 < v.recordLength <= |data| && ok == Faults(true, true, true, true)
    ensures var a := AppendVlrIn(s, f, v, data, ok, host);
      a.result.Ok?
      && VlrHeaderIn(a.session, a.file, 0, ok, host).result == Ok(v.(reserved := 0))
      && VlrDataIn(a.session, a.file, 0, ok, host).result == Ok(data[..v.recordLength])
  {
    var a := AppendVlrIn(s, f, v, data, ok, host);
    var b := Appended(v, data, host);
    assert a.file == Overwrite(f, |f|, b) == f + b + [];
    assert a.session.header.geometry.headerSize == |f|;
    FirstAppendedReadsBack(f, v, data, [], host);
  }

  // ---- Point records

  /** Reads reject a record number outside [0, number of points) before
      touching the stream, and never change the file or the header. */
  lemma PointRecordNumberChecked(s: Session, f: seq<Byte>, recnum: int, faults: Faults, host: Endian)
    ensures var r := PointIn(s, f, recnum, faults, host);
      (r.result == Err(InvalidRecordNumberError) <==> recnum < 0 || recnum >= s.header.geometry.numberOfPoints)
      && r.file == f && r.session.header == s.header
  {
  }

  /** A session whose recorded position is where the stream is reads
      record `recnum` at offset_to_point_data + record length * recnum,
      returns it dequantised, and is left at the start of the next record. */
  lemma ReadMovesToNextRecord(s: Session, f: seq<Byte>, recnum: int, faults: Faults, host: Endian)
    requires s.pos == s.cursor
    ensures var r := PointIn(s, f, recnum, faults, host);
      var g := s.header.geometry;
      r.result.Ok? ==>
        0 <= recnum < g.numberOfPoints && ReadOk(f, RecordAddress(s.header, recnum), g.recordLength)
        && r.result.value == Dequantised(DecodeRecord(Buffer(ReadAt(f, RecordAddress(s.header, recnum), g.recordLength)),
                                                      g.pointFormat, s.swap, host), s.header.scales)
        && r.session.pos == r.session.cursor == RecordAddress(s.header, recnum + 1)
  {
  }

  /** A bounding box widened by a point contains the point and the box
      before it. */
  lemma WidenedContains(b: Bounds, p: Point<U64>)
    requires IsFinite(p.x) && IsFinite(p.y) && IsFinite(p.z)
    requires IsFinite(b.maxX) && IsFinite(b.minX) && IsFinite(b.maxY) && IsFinite(b.minY) && IsFinite(b.maxZ) && IsFinite(b.minZ)
    ensures var w := Widened(b, p);
      Value(w.minX) <= Value(p.x) <= Value(w.maxX) && Value(w.minY) <= Value(p.y) <= Value(w.maxY)
      && Value(w.minZ) <= Value(p.z) <= Value(w.maxZ)
      && Value(w.maxX) >= Value(b.maxX) && Value(w.minX) <= Value(b.minX)
      && Value(w.maxY) >= Value(b.maxY) && Value(w.minY) <= Value(b.minY)
      && Value(w.maxZ) >= Value(b.maxZ) && Value(w.minZ) <= Value(b.minZ)
  {
  }

  /** The first point appended after create (the bounds are still the
      sentinels) becomes the whole bounding box, when its coordinates lie
      within the sentinels. */
  lemma FirstPointSetsBounds(p: Point<U64>)
    requires IsFinite(p.x) && -99999999999999.0 <= Value(p.x) <= 99999999999999.0
    requires IsFinite(p.y) && -99999999999999.0 <= Value(p.y) <= 99999999999999.0
    requires IsFinite(p.z) && -99999999999999.0 <= Value(p.z) <= 99999999999999.0
    ensures Widened(Unset, p) == Bounds(p.x, p.x, p.y, p.y, p.z, p.z)
  {
    SentinelsGiveWay(p.x);
    SentinelsGiveWay(p.y);
    SentinelsGiveWay(p.z);
  }

  /** Appending a point fails with APPEND_ERROR, changing nothing, unless
      the file was created by this session. Otherwise the bounding box is
      widened and the point count raised by one (as a uint32_t) before the
      return number is checked, so a point rejected with
      RETURN_NUMBER_OUT_OF_RANGE is still counted; only an accepted return
      number 1 to 5 raises its count in the tally. A point is written, at the
      stream position and with the record length of the format, exactly
      when the return number is accepted and the write succeeds. */
  lemma AppendPointOutcome(s: Session, f: seq<Byte>, p: Point<U64>, faults: Faults, host: Endian)
    requires SessionOk(s, host)
    ensures var r := AppendPointIn(s, f, p, faults, host);
      !s.created ==> r == Step(s, f, Err(AppendError))
    ensures var r := AppendPointIn(s, f, p, faults, host);
      var h := s.header;
      var n := p.returnBits.number as nat;
      s.created ==>
        r.session.header.bounds == Widened(h.bounds, p)
        && r.session.header.geometry == h.geometry.(numberOfPoints := (h.geometry.numberOfPoints + 1) % 0x1_0000_0000)
        && r.session.header.pointsByReturn == (if 1 <= n <= 5 then Counted(h.pointsByReturn, n) else h.pointsByReturn)
        && r.session.header.(bounds := h.bounds, geometry := h.geometry, pointsByReturn := h.pointsByReturn) == h
        && (r.result == Err(ReturnNumberOutOfRangeError) <==> n < 1 || n > 5)
        && (r.result.Ok? <==> 1 <= n <= 5 && faults.writeOk)
        && r.session.atEnd && SessionOk(r.session, host)
    ensures var r := AppendPointIn(s, f, p, faults, host);
      var rec := EncodeRecord(Quantised(p, s.header.scales), s.header.geometry.pointFormat, host);
      (r.result.Ok? ==> |rec| == s.header.geometry.recordLength && r.file == Overwrite(f, s.cursor, rec)
                        && r.session.data && r.session.pos == r.session.cursor == s.cursor + |rec|)
      && (r.result.Err? ==> r.file == f)
  {
    if s.created {
      RecordLengthCoversFields(s.header.geometry.pointFormat);
    }
  }

  /** A record just written at its address, by a session whose recorded
      position is elsewhere, reads back as those bytes decode. */
  lemma ReadWrittenRecord(s: Session, f: seq<Byte>, recnum: int, rec: seq<Byte>, ok: Faults, host: Endian)
    requires 0 <= recnum < s.header.geometry.numberOfPoints && ok.seekOk
    requires s.pos != RecordAddress(s.header, recnum) && |rec| == s.header.geometry.recordLength > 0
    ensures var g := s.header.geometry;
      PointIn(s, Overwrite(f, RecordAddress(s.header, recnum), rec), recnum, ok, host).result
        == Ok(Dequantised(DecodeRecord(Buffer(rec), g.pointFormat, s.swap, host), s.header.scales))
  {
    ReadBackWritten(f, RecordAddress(s.header, recnum), rec);
  }

  /** What an accepted append with working I/O leaves for a later read: the
      encoded record at the old stream position, one more point, the same
      scales and swap flag, and the stream just after the record. */
  lemma AppendedRecord(s: Session, f: seq<Byte>, p: Point<U64>, ok: Faults, host: Endian)
    requires SessionOk(s, host) && s.created && ok == Faults(true, true, true, true)
    requires 1 <= p.returnBits.number as nat <= 5
    ensures var a := AppendPointIn(s, f, p, ok, host);
      var h := s.header;
      var rec := EncodeRecord(Quantised(p, h.scales), h.geometry.pointFormat, host);
      a.result.Ok? && a.file == Overwrite(f, s.cursor, rec) && |rec| == h.geometry.recordLength
      && a.session.header.geometry == h.geometry.(numberOfPoints := (h.geometry.numberOfPoints + 1) % 0x1_0000_0000)
      && a.session.header.scales == h.scales && a.session.swap == s.swap && a.session.pos == s.cursor + |rec|
  {
    AppendPointOutcome(s, f, p, ok, host);
  }

  /** A point appended where the next record belongs (the stream at
      offset_to_point_data + record length * number of points) reads back
      under its new record number as what the format stores of it, with
      the coordinates dequantised. */
  lemma {:induction false} AppendThenRead(s: Session, f: seq<Byte>, p: Point<U64>, ok: Faults, host: Endian)
    requires SessionOk(s, host) && s.created && ok == Faults(true, true, true, true)
    requires s.cursor == RecordAddress(s.header, s.header.geometry.numberOfPoints)
    requires s.header.geometry.numberOfPoints < 0xFFFF_FFFF && 1 <= p.returnBits.number as nat <= 5
    ensures var a := AppendPointIn(s, f, p, ok, host);
      var h := s.header;
      a.result.Ok?
      && PointIn(a.session, a.file, h.geometry.numberOfPoints, ok, host).result
         == Ok(Dequantised(Stored(Quantised(p, h.scales), h.geometry.pointFormat), h.scales))
  {
    var h := s.header;
    var k := h.geometry.numberOfPoints;
    var fmt := h.geometry.pointFormat;
    var q := Quantised(p, h.scales);
    var rec := EncodeRecord(q, fmt, host);
    AppendedRecord(s, f, p, ok, host);
    var a := AppendPointIn(s, f, p, ok, host);
    assert RecordAddress(a.session.header, k) == s.cursor;
    ReadWrittenRecord(a.session, f, k, rec, ok, host);
    DecodeEncode(q, fmt, host);
  }

  /** Append writes wherever the stream is: after record `recnum` has been
      read from a file created by this session, the next append overwrites
      record recnum + 1 instead of adding a record at the end. */
  lemma {:induction false} AppendAfterReadOverwrites(s: Session, f: seq<Byte>, recnum: int, p: Point<U64>, ok: Faults, host: Endian)
    requires SessionOk(s, host) && s.created && s.pos == s.cursor && ok == Faults(true, true, true, true)
    requires PointIn(s, f, recnum, ok, host).result.Ok? && 1 <= p.returnBits.number as nat <= 5
    ensures var r := PointIn(s, f, recnum, ok, host);
      var h := s.header;
      var a := AppendPointIn(r.session, f, p, ok, host);
      a.result.Ok?
      && a.file == Overwrite(f, RecordAddress(h, recnum + 1), EncodeRecord(Quantised(p, h.scales), h.geometry.pointFormat, host))
  {
    ReadMovesToNextRecord(s, f, recnum, ok, host);
  }

  /** A created file given no VLR keeps offset_to_point_data 0, so record
      0 is read from the first bytes of the file, which hold the header. */
  lemma NoVlrFirstRecordIsHeader(s: Session, f: seq<Byte>, ok: Faults, host: Endian)
    requires s.header.geometry.offsetToPointData == 0 && s.header.geometry.numberOfPoints > 0 && ok.seekOk && s.pos != 0
    requires ReadOk(f, 0, s.header.geometry.recordLength)
    ensures var r := PointIn(s, f, 0, ok, host);
      var g := s.header.geometry;
      r.result == Ok(Dequantised(DecodeRecord(Buffer(f[..g.recordLength]), g.pointFormat, s.swap, host), s.header.scales))
  {
  }

  // ---- Updating a point in place

  /** Update fails with NOT_OPEN_FOR_UPDATE unless the session is in update
      mode (as every created session is), then rejects a record number
      outside [0, number of points); only a successful update changes the
      file, by rewriting the record's own bytes, so the file never grows. */
  lemma UpdateOutcome(s: Session, f: seq<Byte>, recnum: int, p: Point<U64>, faults: Faults, host: Endian)
    ensures var r := UpdatePointIn(s, f, recnum, p, faults, host);
      (r.result == Err(NotOpenForUpdateError) <==> s.mode != Update)
      && (s.mode == Update ==> (r.result == Err(InvalidRecordNumberError) <==> recnum < 0 || recnum >= s.header.geometry.numberOfPoints))
      && r.session.header == s.header
    ensures var r := UpdatePointIn(s, f, recnum, p, faults, host);
      var g := s.header.geometry;
      (r.result.Ok? <==> s.mode == Update && 0 <= recnum < g.numberOfPoints && faults.seekOk
                         && ReadOk(f, RecordAddress(s.header, recnum), g.recordLength) && faults.writeOk)
      && (r.result.Err? ==> r.file == f)
      && (r.result.Ok? ==>
            |r.file| == |f|
            && forall i :: 0 <= i < |f| && !(RecordAddress(s.header, recnum) <= i < RecordAddress(s.header, recnum + 1)) ==> r.file[i] == f[i])
  {
  }

  /** A successful update writes the record's bytes, patched, back where
      they were read, and leaves the stream after them. */
  lemma UpdateWritesBack(s: Session, f: seq<Byte>, recnum: int, p: Point<U64>, ok: Faults, host: Endian)
    requires s.mode == Update && 0 <= recnum < s.header.geometry.numberOfPoints && ok == Faults(true, true, true, true)
    requires ReadOk(f, RecordAddress(s.header, recnum), s.header.geometry.recordLength)
    ensures var g := s.header.geometry;
      var addr := RecordAddress(s.header, recnum);
      var d := Patched(Buffer(ReadAt(f, addr, g.recordLength)), p, g.pointFormat, s.swap, host)[..g.recordLength];
      UpdatePointIn(s, f, recnum, p, ok, host)
        == Step(s.(atEnd := false, pos := addr + g.recordLength, cursor := addr + g.recordLength), Overwrite(f, addr, d), Ok(()))
  {
  }

  /** What update promises: the record read back afterwards carries the
      caller's classification (through its masks), user data, point source
      id and, in formats 2 and 3, colour; every other field reads as it did
      before. */
  lemma {:induction false} UpdateThenRead(s: Session, f: seq<Byte>, recnum: int, p: Point<U64>, ok: Faults, host: Endian)
    requires s.mode == Update && 0 <= recnum < s.header.geometry.numberOfPoints && ok == Faults(true, true, true, true)
    requires RecordLength(s.header.geometry.pointFormat) == Some(s.header.geometry.recordLength)
    requires ReadOk(f, RecordAddress(s.header, recnum), s.header.geometry.recordLength)
    ensures var g := s.header.geometry;
      var before := DecodeRecord(Buffer(ReadAt(f, RecordAddress(s.header, recnum), g.recordLength)), g.pointFormat, s.swap, host);
      var u := UpdatePointIn(s, f, recnum, p, ok, host);
      u.result.Ok?
      && PointIn(u.session, u.file, recnum, ok, host).result
         == Ok(Dequantised(before.(classification := UnpackClass(PackClass(p.classification)), userData := p.userData,
                                   pointSourceId := p.pointSourceId, rgb := if HasRgb(g.pointFormat) then p.rgb else before.rgb),
                           s.header.scales))
  {
    var g := s.header.geometry;
    var addr := RecordAddress(s.header, recnum);
    RecordLengthCoversFields(g.pointFormat);
    var d0 := Buffer(ReadAt(f, addr, g.recordLength));
    var d := Patched(d0, p, g.pointFormat, s.swap, host)[..g.recordLength];
    UpdateWritesBack(s, f, recnum, p, ok, host);
    ReadWrittenRecord(s.(atEnd := false, pos := addr + g.recordLength, cursor := addr + g.recordLength), f, recnum, d, ok, host);
    PatchedRecordReadsBack(d0, p, g.pointFormat, s.swap, host);
  }
}
