/** One libslas session and the file behind it: what each entry point of
    libslas.c does to the session record, the file and the caller, as a
    pure function of the session, the file's bytes and which stdio calls the
    system lets succeed. The session table itself is in module Libslas. */
module LasSession {
  import opened Bytes
  import opened ByteOrder
  import opened Doubles
  import opened LasErrors
  import opened Stream
  import opened LasHeader
  import opened LasPoint
  import opened LasVlr

  /** LIBSLAS_MAX_FILES. */
  const MaxFiles: nat := 64

  /** LIBSLAS_UPDATE (0) and LIBSLAS_READONLY (1). */
  datatype Mode = Update | ReadOnly

  /** The parts of INTERNAL_LIBSLAS_STRUCT the operations consult. `pos` is
      the stream position the library last recorded, `cursor` the position
      the stream is really at; they part after a read that fails. */
  datatype Session = Session(
    path: string, header: Header, swap: bool, mode: Mode, created: bool,
    atEnd: bool, data: bool, pos: nat, cursor: nat)

  /** What a call leaves behind: the session, the file and what it returns. */
  datatype Step<T> = Step(session: Session, file: seq<Byte>, result: Result<T>)

  /** What every open session keeps: a created one never swaps, is in
      update mode and carries the header create gave it; an opened one
      swaps exactly on a big-endian host and has appended nothing. */
  predicate SessionOk(s: Session, host: Endian)
  {
    if s.created then
      !s.swap && s.mode == Update && s.header.geometry.headerSize == HeaderSize
      && s.header.ident.versionMajor == 1 && s.header.ident.versionMinor == 2
      && RecordLength(s.header.geometry.pointFormat) == Some(s.header.geometry.recordLength)
    else
      s.swap == (host == Big) && !s.data
  }

  /** The slot search of create and open: the first slot whose file pointer
      is NULL, or MaxFiles when there is none. */
  function FirstFree(slots: seq<Option<Session>>): (i: nat)
    ensures i <= |slots|
    ensures i < |slots| ==> slots[i].None?
    ensures forall j :: 0 <= j < i ==> slots[j].Some?
  {
    if |slots| == 0 || slots[0].None? then 0
    else
      var i := 1 + FirstFree(slots[1..]);
      assert forall j :: 1 <= j < i ==> slots[j] == slots[1..][j - 1];
      i
  }

  // ---- libslas_create_las_file and libslas_write_header

  /** `strcmp (&path[strlen (path) - 4], ".las") == 0`. */
  predicate HasLasExtension(path: string)
  {
    |path| >= 4 && path[|path| - 4..] == ".las"
  }

  /** max = -99999999999999.0 and min = 99999999999999.0 on every axis. */
  const Unset: Bounds := Bounds(MaxSentinel, MinSentinel, MaxSentinel, MinSentinel, MaxSentinel, MinSentinel)

  /** The standard fields create sets in the caller's header before it
      looks at the point format. */
  function Standardised(h: Header): Header
  {
    h.(ident := h.ident.(versionMajor := 1, versionMinor := 2),
       geometry := h.geometry.(headerSize := HeaderSize, offsetToPointData := 0, numberOfPoints := 0),
       bounds := Unset)
  }

  /** Then the record length of the format and the cleared tally. */
  function Prepared(h: Header, len: U16): Header
  {
    var d := Standardised(h);
    d.(geometry := d.geometry.(recordLength := len), pointsByReturn := [0, 0, 0, 0, 0])
  }

  /** libslas_write_header for a session that does not swap: the 227 bytes
      at offset 0. */
  function HeaderWritten(s: Session, f: seq<Byte>, faults: Faults, host: Endian): (r: Step<()>)
    requires s.header.geometry.headerSize == HeaderSize && !s.swap
  {
    if !faults.seekOk then Step(s, f, Err(HeaderWriteFseekError))
    else if !faults.writeOk then Step(s.(cursor := 0), f, Err(HeaderWriteError))
    else Step(s.(pos := HeaderSize, cursor := HeaderSize), Overwrite(f, 0, PackHeader(s.header, host, false)), Ok(()))
  }

  /** What create leaves in the caller's header, in the file (when it got
      as far as opening it) and in the slot. */
  datatype Creation = Creation(caller: Header, file: Option<seq<Byte>>, result: Result<Session>)

  /** libslas_create_las_file once a free slot has been found. */
  function CreateIn(path: string, h: Header, faults: Faults, host: Endian): Creation
  {
    if !HasLasExtension(path) then Creation(h, None, Err(InvalidFilenameError))
    else if RecordLength(h.geometry.pointFormat).None? then Creation(Standardised(h), None, Err(InvalidPointFormatIdError))
    else
      var g := Prepared(h, RecordLength(h.geometry.pointFormat).value);
      if g.ident.globalEncoding > 1 then Creation(g, None, Err(InvalidGlobalEncodingError))
      else if !faults.openOk then Creation(g, None, Err(LasCreateError))
      else
        var w := HeaderWritten(Session(path, g, false, Update, true, false, false, 0, 0), [], faults, host);
        Creation(g, Some(w.file), if w.result.Ok? then Ok(w.session.(atEnd := true)) else Err(w.result.error))
  }

  // ---- libslas_open_las_file and libslas_read_header

  /** libslas_read_header on a freshly opened file. */
  function HeaderRead(path: string, f: seq<Byte>, mode: Mode, faults: Faults, host: Endian): Result<Session>
  {
    if !faults.seekOk then Err(HeaderReadFseekError)
    else if !ReadOk(f, 0, HeaderSize) then Err(HeaderReadError)
    else
      match DecodeHeader(ReadAt(f, 0, HeaderSize), host, host == Big)
      case Err(e) => Err(e)
      case Ok(h) => Ok(Session(path, h, host == Big, mode, false, false, false, HeaderSize, HeaderSize))
  }

  /** libslas_open_las_file once a free slot has been found; fopen fails
      when the file does not exist or the system refuses it. */
  function OpenIn(path: string, mode: int, files: map<string, seq<Byte>>, faults: Faults, host: Endian): Result<Session>
  {
    if !HasLasExtension(path) then Err(InvalidFilenameError)
    else if mode == 0 && !(faults.openOk && path in files) then Err(OpenUpdateError)
    else if mode == 1 && !(faults.openOk && path in files) then Err(OpenReadonlyError)
    else if mode != 0 && mode != 1 then Err(InvalidModeError)
    else HeaderRead(path, files[path], if mode == 0 then Update else ReadOnly, faults, host)
  }

  // ---- libslas_close_las_file

  /** What close leaves: the file, the slot and the status. */
  datatype Closing = Closing(file: seq<Byte>, slot: Option<Session>, status: int)

  function CloseIn(s: Session, f: seq<Byte>, faults: Faults, host: Endian): Closing
    requires SessionOk(s, host)
  {
    var w := if s.created then HeaderWritten(s, f, faults, host) else Step(s, f, Ok(()));
    if w.result.Err? then Closing(w.file, Some(w.session), Code(w.result.error))
    else if !faults.closeOk then Closing(w.file, Some(w.session), Code(CloseError))
    else Closing(w.file, None, Success)
  }

  // ---- Variable length records

  /** libslas_read_vlr_header. */
  function VlrHeaderIn(s: Session, f: seq<Byte>, recnum: int, faults: Faults, host: Endian): (r: Step<VlrHeader>)
  {
    if recnum >= s.header.geometry.numberOfVlrs || recnum < 0 then Step(s, f, Err(InvalidVlrRecordNumberError))
    else if !faults.seekOk then Step(s, f, Err(VlrReadFseekError))
    else
      match Walk(f, s.header.geometry.headerSize, recnum, s.swap, host)
      case Short(c) => Step(s.(cursor := c), f, Err(VlrReadError))
      case Found(v, at) => Step(s.(atEnd := false, pos := at + SubHeaderSize, cursor := at + SubHeaderSize), f, Ok(v))
  }

  /** libslas_read_vlr_data. */
  function VlrDataIn(s: Session, f: seq<Byte>, recnum: int, faults: Faults, host: Endian): (r: Step<seq<Byte>>)
  {
    if recnum >= s.header.geometry.numberOfVlrs || recnum < 0 then Step(s, f, Err(InvalidVlrRecordNumberError))
    else if !faults.seekOk then Step(s, f, Err(VlrReadFseekError))
    else
      match Walk(f, s.header.geometry.headerSize, recnum, s.swap, host)
      case Short(c) => Step(s.(cursor := c), f, Err(VlrReadError))
      case Found(v, at) =>
        var c := at + SubHeaderSize;
        match Payload(f, at, v.recordLength)
        case None => Step(s.(cursor := CursorAfterRead(f, c, v.recordLength)), f, Err(VlrReadError))
        case Some(d) => Step(s.(atEnd := false, pos := c + v.recordLength, cursor := c + v.recordLength), f, Ok(d))
  }

  /** libslas_append_vlr_record; the caller's buffer holds at least the
      record length of payload. The swap branch is never taken, because a
      created session does not swap. */
  function AppendVlrIn(s: Session, f: seq<Byte>, v: VlrHeader, data: seq<Byte>, faults: Faults, host: Endian): (r: Step<()>)
    requires SessionOk(s, host) && v.recordLength <= |data|
  {
    if !s.created || s.data then Step(s, f, Err(VlrAppendError))
    else if !s.atEnd && !faults.seekOk then Step(s, f, Err(VlrWriteFseekError))
    else
      var c := if s.atEnd then s.cursor else |f|;
      var s1 := s.(atEnd := true, cursor := c);
      if !faults.writeOk then Step(s1, f, Err(VlrWriteError))
      else if v.recordLength == 0 then
        Step(s1.(cursor := c + SubHeaderSize), Overwrite(f, c, PackSubHeader(v.(reserved := 0), host)), Err(VlrWriteError))
      else
        var end := c + SubHeaderSize + v.recordLength;
        var h := s.header.(geometry := s.header.geometry.(offsetToPointData := end % 0x1_0000_0000));
        Step(s1.(header := h, pos := end % 0x1_0000_0000, cursor := end), Overwrite(f, c, Appended(v, data, host)), Ok(()))
  }

  // ---- Point records

  /** `offset_to_point_data + point_data_record_length * recnum`. */
  function RecordAddress(h: Header, recnum: nat): nat
  {
    h.geometry.offsetToPointData + h.geometry.recordLength * recnum
  }

  /** libslas_read_point_data: the seek is skipped when the recorded
      position is already the record's address. */
  function PointIn(s: Session, f: seq<Byte>, recnum: int, faults: Faults, host: Endian): (r: Step<Point<real>>)
  {
    var g := s.header.geometry;
    if recnum >= g.numberOfPoints || recnum < 0 then Step(s, f, Err(InvalidRecordNumberError))
    else
      var addr := RecordAddress(s.header, recnum);
      if s.pos != addr && !faults.seekOk then Step(s, f, Err(ReadFseekError))
      else
        var c := if s.pos != addr then addr else s.cursor;
        if !ReadOk(f, c, g.recordLength) then Step(s.(cursor := CursorAfterRead(f, c, g.recordLength)), f, Err(ReadError))
        else
          var raw := DecodeRecord(Buffer(ReadAt(f, c, g.recordLength)), g.pointFormat, s.swap, host);
          Step(s.(atEnd := false, pos := c + g.recordLength, cursor := c + g.recordLength), f, Ok(Dequantised(raw, s.header.scales)))
  }

  /** MIN/MAX of each bound with the appended point. */
  function Widened(b: Bounds, p: Point<U64>): Bounds
  {
    Bounds(Max(b.maxX, p.x), Min(b.minX, p.x), Max(b.maxY, p.y), Min(b.minY, p.y), Max(b.maxZ, p.z), Min(b.minZ, p.z))
  }

  /** The uint32_t count for return number n (1 to 5) incremented. */
  function Counted(t: Tally, n: nat): (r: Tally)
    requires 1 <= n <= 5
  {
    t[n - 1 := (t[n - 1] as int + 1) % 0x1_0000_0000]
  }

  /** libslas_append_point_data: the bounds and the point count are updated
      before the return number is checked, and the record is written
      wherever the stream is. The swap branch is never taken, because a
      created session does not swap. */
  function AppendPointIn(s: Session, f: seq<Byte>, p: Point<U64>, faults: Faults, host: Endian): (r: Step<()>)
    requires SessionOk(s, host)
  {
    if !s.created then Step(s, f, Err(AppendError))
    else
      var h := s.header;
      var h1 := h.(bounds := Widened(h.bounds, p),
                   geometry := h.geometry.(numberOfPoints := (h.geometry.numberOfPoints + 1) % 0x1_0000_0000));
      var n := p.returnBits.number as nat;
      if n < 1 || n > 5 then Step(s.(atEnd := true, header := h1), f, Err(ReturnNumberOutOfRangeError))
      else
        var s2 := s.(atEnd := true, header := h1.(pointsByReturn := Counted(h1.pointsByReturn, n)));
        if !faults.writeOk then Step(s2, f, Err(WriteError))
        else
          var rec := EncodeRecord(Quantised(p, h.scales), h.geometry.pointFormat, host);
          Step(s2.(pos := s.cursor + |rec|, cursor := s.cursor + |rec|, data := true), Overwrite(f, s.cursor, rec), Ok(()))
  }

  /** libslas_update_point_data: read the record, patch the modifiable
      fields, seek back and write it. */
  function UpdatePointIn(s: Session, f: seq<Byte>, recnum: int, p: Point<U64>, faults: Faults, host: Endian): (r: Step<()>)
  {
    var g := s.header.geometry;
    if s.mode != Update then Step(s, f, Err(NotOpenForUpdateError))
    else if recnum >= g.numberOfPoints || recnum < 0 then Step(s, f, Err(InvalidRecordNumberError))
    else if !faults.seekOk then Step(s, f, Err(UpdateFseekError))
    else
      var addr := RecordAddress(s.header, recnum);
      if !ReadOk(f, addr, g.recordLength) then Step(s.(cursor := CursorAfterRead(f, addr, g.recordLength)), f, Err(UpdateReadError))
      else
        var d := Patched(Buffer(ReadAt(f, addr, g.recordLength)), p, g.pointFormat, s.swap, host)[..g.recordLength];
        if !faults.writeOk then Step(s.(cursor := addr), f, Err(WriteError))
        else Step(s.(atEnd := false, pos := addr + g.recordLength, cursor := addr + g.recordLength), Overwrite(f, addr, d), Ok(()))
  }
}
