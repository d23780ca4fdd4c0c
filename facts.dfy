/** What the session operations promise, and what they do as written
    where that differs from what a caller of libslas would expect. */
module LasSessionFacts {
  import opened Bytes
  import opened ByteOrder
  import opened Doubles
  import opened LasErrors
  import opened Stream
  import opened LasHeader
  import opened LasPoint
  import opened LasVlr
  import opened LasSession

  // ---- What create, open and close promise

  /** Create fails on the first of: a name without the .las extension, a
      point format other than 0 to 3, a global encoding above 1, then the
      open, the seek and the write of the file. The file exists (truncated)
      exactly when the open was reached and succeeded, and it stays empty
      when the header could not be written. */
  lemma CreateOutcome(path: string, h: Header, faults: Faults, host: Endian)
    ensures var c := CreateIn(path, h, faults, host);
      c.result.Ok? <==> HasLasExtension(path) && h.geometry.pointFormat <= 3 && h.ident.globalEncoding <= 1
                        && faults.openOk && faults.seekOk && faults.writeOk
    ensures var c := CreateIn(path, h, faults, host);
      c.file.Some? <==> HasLasExtension(path) && h.geometry.pointFormat <= 3 && h.ident.globalEncoding <= 1 && faults.openOk
    ensures var c := CreateIn(path, h, faults, host);
      c.file.Some? && c.result.Err? ==> c.file.value == []
    ensures var c := CreateIn(path, h, faults, host);
      !HasLasExtension(path) ==> c.result == Err(InvalidFilenameError) && c.caller == h
    ensures var c := CreateIn(path, h, faults, host);
      HasLasExtension(path) && h.geometry.pointFormat > 3 ==> c.result == Err(InvalidPointFormatIdError)
    ensures var c := CreateIn(path, h, faults, host);
      HasLasExtension(path) && h.geometry.pointFormat <= 3 && h.ident.globalEncoding > 1 ==> c.result == Err(InvalidGlobalEncodingError)
  {
    RecordLengthCoversFields(h.geometry.pointFormat);
  }

  /** The header create prepares: version 1.2, a 227-byte header, no
      points, an empty tally, the sentinel bounds, offset 0 and the record
      length given; every other field is the caller's. */
  lemma PreparedFields(h: Header, len: U16)
    ensures var g := Prepared(h, len);
      g.ident.versionMajor == 1 && g.ident.versionMinor == 2
      && g.ident.(versionMajor := h.ident.versionMajor, versionMinor := h.ident.versionMinor) == h.ident
      && g.text == h.text && g.scales == h.scales && g.bounds == Unset && g.pointsByReturn == [0, 0, 0, 0, 0]
      && g.geometry.headerSize == HeaderSize && g.geometry.offsetToPointData == 0 && g.geometry.numberOfPoints == 0
      && g.geometry.recordLength == len
      && g.geometry.(headerSize := h.geometry.headerSize, offsetToPointData := h.geometry.offsetToPointData,
                     numberOfPoints := h.geometry.numberOfPoints, recordLength := h.geometry.recordLength) == h.geometry
  {
  }

  /** Writing the header of a session into an empty file leaves exactly
      the packed header there and the stream just after it. */
  lemma WrittenIntoEmpty(s: Session, faults: Faults, host: Endian)
    requires s.header.geometry.headerSize == HeaderSize && !s.swap && faults.seekOk && faults.writeOk
    ensures HeaderWritten(s, [], faults, host) == Step(s.(pos := HeaderSize, cursor := HeaderSize), PackHeader(s.header, host, false), Ok(()))
  {
    OverwriteEmpty(PackHeader(s.header, host, false));
  }

  /** A successful create hands the caller the prepared header, keeps the
      same header in a session that satisfies the invariant of a created
      session, positioned at the end of a file that holds that header and
      nothing else. */
  lemma CreatedSession(path: string, h: Header, faults: Faults, host: Endian)
    requires CreateIn(path, h, faults, host).result.Ok?
    ensures var c := CreateIn(path, h, faults, host);
      var g := Prepared(h, RecordLength(h.geometry.pointFormat).value);
      c.caller == g && c.file == Some(PackHeader(g, host, false))
      && c.result.value == Session(path, g, false, Update, true, true, false, HeaderSize, HeaderSize)
      && SessionOk(c.result.value, host)
  {
    var len := RecordLength(h.geometry.pointFormat).value;
    var g := Prepared(h, len);
    PreparedFields(h, len);
    CreateOutcome(path, h, faults, host);
    WrittenIntoEmpty(Session(path, g, false, Update, true, false, false, 0, 0), faults, host);
  }

  /** Reading the header of an opened file fails on the first of: the
      seek, a file shorter than a header, a missing "LASF" signature and a
      version of major 1 with minor above 2. */
  lemma HeaderReadOutcome(path: string, f: seq<Byte>, mode: Mode, faults: Faults, host: Endian)
    ensures var r := HeaderRead(path, f, mode, faults, host);
      r.Ok? <==> faults.seekOk && ReadOk(f, 0, HeaderSize) && Accepted(ReadAt(f, 0, HeaderSize))
  {
    if faults.seekOk && ReadOk(f, 0, HeaderSize) {
      AcceptedExactly(ReadAt(f, 0, HeaderSize), host, host == Big);
    }
  }

  /** Otherwise the session holds the header as received (swapped on a
      big-endian host), in the mode asked for, positioned after the header. */
  lemma HeaderReadSession(path: string, f: seq<Byte>, mode: Mode, faults: Faults, host: Endian)
    ensures var r := HeaderRead(path, f, mode, faults, host);
      r.Ok? ==> ReadOk(f, 0, HeaderSize)
                && r.value == Session(path, Received(ReadAt(f, 0, HeaderSize), host, host == Big), host == Big, mode,
                                      false, false, false, HeaderSize, HeaderSize)
  {
    if faults.seekOk && ReadOk(f, 0, HeaderSize) {
      var b := ReadAt(f, 0, HeaderSize);
      if DecodeHeader(b, host, host == Big).Ok? {
        DecodedIsReceived(b, host, host == Big);
      }
    }
  }

  /** A header read that succeeds gives a session of an opened file in
      the mode asked for. */
  lemma HeaderReadFields(path: string, f: seq<Byte>, mode: Mode, faults: Faults, host: Endian)
    ensures var r := HeaderRead(path, f, mode, faults, host);
      r.Ok? ==> SessionOk(r.value, host) && r.value.path == path && !r.value.created && r.value.mode == mode
  {
  }

  /** Open fails on the first of: a name without the .las extension, an
      fopen that fails in mode 0 or 1, any other mode, then the header
      read. Otherwise the session keeps the invariant of an opened session
      in the mode asked for. */
  lemma OpenOutcome(path: string, mode: int, files: map<string, seq<Byte>>, faults: Faults, host: Endian)
    ensures var r := OpenIn(path, mode, files, faults, host);
      r.Ok? <==> HasLasExtension(path) && (mode == 0 || mode == 1) && faults.openOk && path in files
                 && HeaderRead(path, files[path], if mode == 0 then Update else ReadOnly, faults, host).Ok?
    ensures var r := OpenIn(path, mode, files, faults, host);
      r.Ok? ==> SessionOk(r.value, host) && r.value.path == path && !r.value.created
                && r.value.mode == (if mode == 0 then Update else ReadOnly)
    ensures var r := OpenIn(path, mode, files, faults, host);
      HasLasExtension(path) && mode != 0 && mode != 1 ==> r == Err(InvalidModeError)
  {
    if HasLasExtension(path) && (mode == 0 || mode == 1) && faults.openOk && path in files {
      HeaderReadFields(path, files[path], if mode == 0 then Update else ReadOnly, faults, host);
    }
  }

  /** Close gives the slot back exactly when the header rewrite of a
      created file (seek and write) and the fclose succeed; a created file
      gets its final header at offset 0, an opened one is left as it is. */
  lemma CloseOutcome(s: Session, f: seq<Byte>, faults: Faults, host: Endian)
    requires SessionOk(s, host)
    ensures var c := CloseIn(s, f, faults, host);
      (c.slot.None? <==> (!s.created || (faults.seekOk && faults.writeOk)) && faults.closeOk)
      && (c.slot.None? <==> c.status == Success)
      && (c.slot.Some? ==> c.status < 0 && SessionOk(c.slot.value, host) && c.slot.value.path == s.path)
      && (s.created && faults.seekOk && faults.writeOk ==> c.file == Overwrite(f, 0, PackHeader(s.header, host, false)))
      && (!s.created || !faults.seekOk || !faults.writeOk ==> c.file == f)
  {
    var c := CloseIn(s, f, faults, host);
    if c.slot.Some? {
      CodesAreDistinct(if s.created && !faults.seekOk then HeaderWriteFseekError
                       else if s.created && !faults.writeOk then HeaderWriteError else CloseError, CloseError);
    }
  }

  /** Closing a created session without a fault writes its header at the
      start of the file and frees the slot. */
  lemma CloseRewritesHeader(s: Session, f: seq<Byte>, ok: Faults, host: Endian)
    requires SessionOk(s, host) && s.created && ok == Faults(true, true, true, true)
    ensures CloseIn(s, f, ok, host) == Closing(Overwrite(f, 0, PackHeader(s.header, host, false)), None, Success)
  {
  }

  /** A header read whose 227 bytes decode yields a session holding what
      they decode to. */
  lemma HeaderReadDecoded(path: string, f: seq<Byte>, mode: Mode, faults: Faults, host: Endian, h: Header)
    requires faults.seekOk && ReadOk(f, 0, HeaderSize) && DecodeHeader(ReadAt(f, 0, HeaderSize), host, host == Big) == Ok(h)
    ensures HeaderRead(path, f, mode, faults, host) == Ok(Session(path, h, host == Big, mode, false, false, false, HeaderSize, HeaderSize))
  {
  }

  /** A file whose first 227 bytes decode opens, in either mode, with the
      header they decode to. */
  lemma {:induction false} OpenDecodable(path: string, files: map<string, seq<Byte>>, h: Header, mode: int, ok: Faults, host: Endian)
    requires HasLasExtension(path) && (mode == 0 || mode == 1) && ok == Faults(true, true, true, true)
    requires path in files && ReadOk(files[path], 0, HeaderSize)
    requires DecodeHeader(ReadAt(files[path], 0, HeaderSize), host, host == Big) == Ok(h)
    ensures OpenIn(path, mode, files, ok, host)
      == Ok(Session(path, h, host == Big, if mode == 0 then Update else ReadOnly, false, false, false, HeaderSize, HeaderSize))
  {
    var m := if mode == 0 then Update else ReadOnly;
    HeaderReadDecoded(path, files[path], m, ok, host, h);
  }

  /** On a little-endian host a created file closed without a fault opens
      again, in either mode, with the header the session held. */
  lemma {:induction false} CloseThenOpen(s: Session, f: seq<Byte>, files: map<string, seq<Byte>>, mode: int, ok: Faults)
    requires SessionOk(s, Little) && s.created && HasLasExtension(s.path) && (mode == 0 || mode == 1)
    requires ok == Faults(true, true, true, true)
    ensures var c := CloseIn(s, f, ok, Little);
      c.status == Success && c.slot.None? &&
      OpenIn(s.path, mode, files[s.path := c.file], ok, Little)
        == Ok(Session(s.path, s.header, false, if mode == 0 then Update else ReadOnly, false, false, false, HeaderSize, HeaderSize))
  {
    CloseRewritesHeader(s, f, ok, Little);
    var b := PackHeader(s.header, Little, false);
    ReadBackWritten(f, 0, b);
    ReadAfterWrite(s.header, Little, false);
    OpenDecodable(s.path, files[s.path := Overwrite(f, 0, b)], s.header, mode, ok, Little);
  }

  /** The byte-reversed 227. */
  lemma SwappedHeaderSize()
    ensures SwapU16(HeaderSize, Big) == 0xE300
  {
    var r := SwapU16(HeaderSize, Big);
    assert LE(HeaderSize, 2) == [227, 0];
    FromLEOfLE(r, 2);
    assert FromLE(LE(r, 2)) == FromLE([0, 227]);
  }

  /** On a big-endian host a created file is written unswapped (a created
      session never swaps) but read back swapped, so it reopens with every
      field the swap covers byte-reversed: its header size reads as 0xE300. */
  lemma {:induction false} CloseThenOpenOnBigHost(s: Session, f: seq<Byte>, files: map<string, seq<Byte>>, mode: int, ok: Faults)
    requires SessionOk(s, Big) && s.created && HasLasExtension(s.path) && (mode == 0 || mode == 1)
    requires ok == Faults(true, true, true, true)
    ensures var c := CloseIn(s, f, ok, Big);
      var r := OpenIn(s.path, mode, files[s.path := c.file], ok, Big);
      r.Ok? && r.value.header == SwapHeader(s.header, Big) && r.value.header.geometry.headerSize == 0xE300
  {
    CloseRewritesHeader(s, f, ok, Big);
    var b := PackHeader(s.header, Big, false);
    ReadBackWritten(f, 0, b);
    UnswappedWriteSwappedRead(s.header);
    OpenDecodable(s.path, files[s.path := Overwrite(f, 0, b)], SwapHeader(s.header, Big), mode, ok, Big);
    SwappedHeaderSize();
  }


}
