/** The static session table `las[]` of libslas.c and the public entry
    points that use it. Each entry point follows the C function step by
    step and is proved to leave the table, the files and its results as the
    corresponding function of module LasSession says. */
module Libslas {
  import opened Bytes
  import opened ByteOrder
  import opened Doubles
  import opened LasErrors
  import opened Stream
  import opened LasHeader
  import opened LasPoint
  import opened LasVlr
  import opened LasSession
  import opened LasSessionFacts
  import opened LasRecordFacts

  class Library {
    /** The byte order libslas_big_endian reports on this host. */
    const host: Endian
    /** las[LIBSLAS_MAX_FILES]: a slot holds a session while its fp is not NULL. */
    const las: array<Option<Session>>
    /** The file system the sessions read and write. */
    var files: map<string, seq<Byte>>

    /** Every open session keeps its invariant, and its file exists. */
    ghost predicate Valid()
      reads this, las
    {
      las.Length == MaxFiles
      && forall i :: 0 <= i < las.Length && las[i].Some? ==> SessionOk(las[i].value, host) && las[i].value.path in files
    }

    /** The first call's loop that sets every fp to NULL. */
    constructor (host: Endian, disk: map<string, seq<Byte>>)
      ensures Valid() && fresh(las) && this.host == host && files == disk
      ensures forall i :: 0 <= i < MaxFiles ==> las[i].None?
    {
      this.host := host;
      files := disk;
      las := new Option<Session>[MaxFiles](_ => None);
    }

    /** Store a session in slot hnd. */
    method Put(hnd: nat, s: Session)
      requires Valid() && hnd < MaxFiles && SessionOk(s, host) && s.path in files
      modifies las
      ensures Valid() && las[..] == old(las[..])[hnd := Some(s)]
    {
      las[hnd] := Some(s);
    }

    /** The slot search of create and open: the lowest slot whose fp is
        NULL, or LIBSLAS_MAX_FILES when every slot is in use. */
    method FindFreeSlot() returns (hnd: nat)
      requires Valid()
      ensures hnd == FirstFree(las[..])
    {
      hnd := MaxFiles;
      var i := 0;
      while i < MaxFiles
        invariant 0 <= i <= MaxFiles
        invariant forall j :: 0 <= j < i ==> las[j].Some?
      {
        if las[i].None? {
          hnd := i;
          return;
        }
        i := i + 1;
      }
    }

    /** libslas_write_header for a session that does not swap: seek to 0
        and write the 227 packed bytes. */
    method WriteHeader(s: Session, faults: Faults) returns (t: Session, r: Result<()>)
      requires s.header.geometry.headerSize == HeaderSize && !s.swap && s.path in files
      modifies this
      ensures var w := HeaderWritten(s, old(files)[s.path], faults, host);
        t == w.session && r == w.result && files == old(files)[s.path := w.file]
    {
      t := s;
      if !faults.seekOk {
        return t, Err(HeaderWriteFseekError);
      }
      t := t.(cursor := 0);
      var headerData := PackHeader(t.header, host, false);
      if !faults.writeOk {
        return t, Err(HeaderWriteError);
      }
      files := files[s.path := Overwrite(files[s.path], 0, headerData)];
      t := t.(pos := HeaderSize, cursor := HeaderSize);
      r := Ok(());
    }

    /** libslas_create_las_file: the caller's header comes back with the
        standard fields set as far as create got. */
    method Create(path: string, header: Header, faults: Faults) returns (hnd: int, caller: Header)
      requires Valid()
      modifies this, las
      ensures Valid()
      ensures var k := FirstFree(old(las[..]));
        k == MaxFiles ==> hnd == Code(TooManyOpenFilesError) && caller == header && las[..] == old(las[..]) && files == old(files)
      ensures var k := FirstFree(old(las[..]));
        var c := CreateIn(path, header, faults, host);
        k < MaxFiles ==>
          caller == c.caller && hnd == c.result.Status(k)
          && files == (if c.file.Some? then old(files)[path := c.file.value] else old(files))
          && las[..] == (if c.result.Ok? then old(las[..])[k := Some(c.result.value)] else old(las[..]))
    {
      caller := header;
      var k := FindFreeSlot();
      if k == MaxFiles {
        return Code(TooManyOpenFilesError), caller;
      }
      var c := CreateStep(path, header, faults, host);
      caller := c.caller;
      if c.file.Some? {
        files := files[path := c.file.value];
      }
      if c.result.Err? {
        return Code(c.result.error), caller;
      }
      CreatedSession(path, header, faults, host);
      Put(k, c.result.value);
      hnd := k;
    }

    /** libslas_read_header on a freshly opened file. */
    method ReadHeader(path: string, f: seq<Byte>, swap: bool, mode: Mode, faults: Faults) returns (r: Result<Session>)
      requires swap == (host == Big)
      ensures r == HeaderRead(path, f, mode, faults, host)
    {
      if !faults.seekOk {
        return Err(HeaderReadFseekError);
      }
      if !ReadOk(f, 0, HeaderSize) {
        return Err(HeaderReadError);
      }
      var headerData := ReadAt(f, 0, HeaderSize);
      var d := DecodeHeader(headerData, host, swap);
      if d.Err? {
        return Err(d.error);
      }
      r := Ok(Session(path, d.value, swap, mode, false, false, false, HeaderSize, HeaderSize));
    }

    /** libslas_open_las_file: the caller receives the header only on
        success. */
    method Open(path: string, mode: int, faults: Faults) returns (hnd: int, header: Option<Header>)
      requires Valid()
      modifies las
      ensures Valid()
      ensures var k := FirstFree(old(las[..]));
        k == MaxFiles ==> hnd == Code(TooManyOpenFilesError) && header.None? && las[..] == old(las[..])
      ensures var k := FirstFree(old(las[..]));
        var r := OpenIn(path, mode, files, faults, host);
        k < MaxFiles ==>
          hnd == r.Status(k) && header == (if r.Ok? then Some(r.value.header) else None)
          && las[..] == (if r.Ok? then old(las[..])[k := Some(r.value)] else old(las[..]))
    {
      header := None;
      var k := FindFreeSlot();
      if k == MaxFiles {
        return Code(TooManyOpenFilesError), header;
      }
      if !HasLasExtension(path) {
        return Code(InvalidFilenameError), header;
      }
      var swap := BigEndian(host) != 0;
      var m: Mode;
      if mode == 0 {
        if !(faults.openOk && path in files) {
          return Code(OpenUpdateError), header;
        }
        m := Update;
      } else if mode == 1 {
        if !(faults.openOk && path in files) {
          return Code(OpenReadonlyError), header;
        }
        m := ReadOnly;
      } else {
        return Code(InvalidModeError), header;
      }
      var r := ReadHeader(path, files[path], swap, m, faults);
      if r.Err? {
        return Code(r.error), header;
      }
      HeaderReadFields(path, files[path], m, faults, host);
      header := Some(r.value.header);
      Put(k, r.value);
      hnd := k;
    }

    /** libslas_close_las_file: closing a free slot succeeds and changes
        nothing. */
    method Close(hnd: int, faults: Faults) returns (status: int)
      requires Valid() && 0 <= hnd < MaxFiles
      modifies this, las
      ensures Valid()
      ensures old(las[hnd]).None? ==> status == Success && las[..] == old(las[..]) && files == old(files)
      ensures old(las[hnd]).Some? ==>
        var s := old(las[hnd]).value;
        var c := CloseIn(s, old(files)[s.path], faults, host);
        status == c.status && las[..] == old(las[..])[hnd := c.slot] && files == old(files)[s.path := c.file]
    {
      if las[hnd].None? {
        return Success;
      }
      var s := las[hnd].value;
      if s.created {
        var t, r := WriteHeader(s, faults);
        if r.Err? {
          Put(hnd, t);
          return Code(r.error);
        }
        s := t;
      }
      if !faults.closeOk {
        Put(hnd, s);
        return Code(CloseError);
      }
      las[hnd] := None;
      status := Success;
    }

    /** libslas_read_vlr_header. */
    method ReadVlrHeader(hnd: int, recnum: int, faults: Faults) returns (status: int, v: Option<VlrHeader>)
      requires Valid() && 0 <= hnd < MaxFiles && las[hnd].Some?
      modifies las
      ensures Valid()
      ensures var s := old(las[hnd]).value;
        var st := VlrHeaderIn(s, files[s.path], recnum, faults, host);
        las[..] == old(las[..])[hnd := Some(st.session)] && status == st.result.Status(Success)
        && v == (if st.result.Ok? then Some(st.result.value) else None)
    {
      var s := las[hnd].value;
      var f := files[s.path];
      if recnum >= s.header.geometry.numberOfVlrs || recnum < 0 {
        return Code(InvalidVlrRecordNumberError), None;
      }
      if !faults.seekOk {
        return Code(VlrReadFseekError), None;
      }
      var w := WalkTo(f, s.header.geometry.headerSize, recnum, s.swap, host);
      match w
      case Short(c) =>
        Put(hnd, s.(cursor := c));
        return Code(VlrReadError), None;
      case Found(h, at) =>
        Put(hnd, s.(atEnd := false, pos := at + SubHeaderSize, cursor := at + SubHeaderSize));
        return Success, Some(h);
    }

    /** libslas_read_vlr_data. */
    method ReadVlrData(hnd: int, recnum: int, faults: Faults) returns (status: int, data: Option<seq<Byte>>)
      requires Valid() && 0 <= hnd < MaxFiles && las[hnd].Some?
      modifies las
      ensures Valid()
      ensures var s := old(las[hnd]).value;
        var st := VlrDataIn(s, files[s.path], recnum, faults, host);
        las[..] == old(las[..])[hnd := Some(st.session)] && status == st.result.Status(Success)
        && data == (if st.result.Ok? then Some(st.result.value) else None)
    {
      var s := las[hnd].value;
      var st := VlrDataIn(s, files[s.path], recnum, faults, host);
      Put(hnd, st.session);
      status := st.result.Status(Success);
      data := if st.result.Ok? then Some(st.result.value) else None;
    }

    /** libslas_append_vlr_record: the caller's sub-header comes back with
        its reserved field cleared once the append got past the seek. The
        five fwrite calls of the sub-header write one 54-byte block. */
    method AppendVlr(hnd: int, v: VlrHeader, data: seq<Byte>, faults: Faults) returns (status: int, caller: VlrHeader)
      requires Valid() && 0 <= hnd < MaxFiles && las[hnd].Some? && v.recordLength <= |data|
      modifies this, las
      ensures Valid()
      ensures var s := old(las[hnd]).value;
        var st := AppendVlrIn(s, old(files)[s.path], v, data, faults, host);
        las[..] == old(las[..])[hnd := Some(st.session)] && files == old(files)[s.path := st.file]
        && status == st.result.Status(Success)
        && caller == (if s.created && !s.data && (s.atEnd || faults.seekOk) then v.(reserved := 0) else v)
    {
      var s := las[hnd].value;
      var f := files[s.path];
      AppendVlrOutcome(s, f, v, data, faults, host);
      var st := AppendVlrIn(s, f, v, data, faults, host);
      files := files[s.path := st.file];
      Put(hnd, st.session);
      status := st.result.Status(Success);
      caller := if s.created && !s.data && (s.atEnd || faults.seekOk) then v.(reserved := 0) else v;
    }

    /** libslas_read_point_data: the record comes back dequantised. */
    method ReadPoint(hnd: int, recnum: int, faults: Faults) returns (status: int, p: Option<Point<real>>)
      requires Valid() && 0 <= hnd < MaxFiles && las[hnd].Some?
      modifies las
      ensures Valid()
      ensures var s := old(las[hnd]).value;
        var st := PointIn(s, files[s.path], recnum, faults, host);
        las[..] == old(las[..])[hnd := Some(st.session)] && status == st.result.Status(Success)
        && p == (if st.result.Ok? then Some(st.result.value) else None)
    {
      var s := las[hnd].value;
      var st := PointIn(s, files[s.path], recnum, faults, host);
      Put(hnd, st.session);
      status := st.result.Status(Success);
      p := if st.result.Ok? then Some(st.result.value) else None;
    }

    /** libslas_append_point_data: the bounds and the point count change
        before the return number is checked. */
    method AppendPoint(hnd: int, p: Point<U64>, faults: Faults) returns (status: int)
      requires Valid() && 0 <= hnd < MaxFiles && las[hnd].Some?
      modifies this, las
      ensures Valid()
      ensures var s := old(las[hnd]).value;
        var st := AppendPointIn(s, old(files)[s.path], p, faults, host);
        las[..] == old(las[..])[hnd := Some(st.session)] && files == old(files)[s.path := st.file]
        && status == st.result.Status(Success)
    {
      var s := las[hnd].value;
      var f := files[s.path];
      AppendPointOutcome(s, f, p, faults, host);
      var st := AppendPointIn(s, f, p, faults, host);
      files := files[s.path := st.file];
      Put(hnd, st.session);
      status := st.result.Status(Success);
    }

    /** libslas_update_point_data: the record is read into a buffer, the
        modifiable fields are patched in place and the record length of the
        buffer is written back where it came from. */
    method UpdatePoint(hnd: int, recnum: int, p: Point<U64>, faults: Faults) returns (status: int)
      requires Valid() && 0 <= hnd < MaxFiles && las[hnd].Some?
      modifies this, las
      ensures Valid()
      ensures var s := old(las[hnd]).value;
        var st := UpdatePointIn(s, old(files)[s.path], recnum, p, faults, host);
        las[..] == old(las[..])[hnd := Some(st.session)] && files == old(files)[s.path := st.file]
        && status == st.result.Status(Success)
    {
      var s := las[hnd].value;
      var st := UpdateStep(s, files[s.path], recnum, p, faults, host);
      files := files[s.path := st.file];
      Put(hnd, st.session);
      status := st.result.Status(Success);
    }
  }

  /** The part of libslas_create_las_file that fills in the caller's
      header: the version, the header size, the zero offset and count and
      the unset bounds, then the record length of the point format (none
      for an unknown format, which stops create there) and the cleared
      tally. */
  method PrepareHeader(header: Header) returns (caller: Header, len: Option<U16>)
    ensures len == RecordLength(header.geometry.pointFormat)
    ensures len.None? ==> caller == Standardised(header)
    ensures len.Some? ==> caller == Prepared(header, len.value)
  {
    caller := header;
    caller := caller.(ident := caller.ident.(versionMajor := 1, versionMinor := 2));
    caller := caller.(geometry := caller.geometry.(headerSize := HeaderSize, offsetToPointData := 0, numberOfPoints := 0));
    caller := caller.(bounds := Unset);
    len := RecordLength(caller.geometry.pointFormat);
    if len.None? {
      return;
    }
    caller := caller.(geometry := caller.geometry.(recordLength := len.value));
    var tally := caller.pointsByReturn;
    for i := 0 to 5
      invariant |tally| == 5
      invariant forall j :: 0 <= j < i ==> tally[j] == 0
    {
      tally := tally[i := 0];
    }
    caller := caller.(pointsByReturn := tally);
  }

  /** libslas_create_las_file once a free slot has been found: the name
      check, the caller's header filled in, the encoding check, the open
      that truncates the file, and the header written into it. */
  method CreateStep(path: string, header: Header, faults: Faults, host: Endian) returns (c: Creation)
    ensures c == CreateIn(path, header, faults, host)
  {
    if !HasLasExtension(path) {
      return Creation(header, None, Err(InvalidFilenameError));
    }
    var caller, len := PrepareHeader(header);
    if len.None? {
      return Creation(caller, None, Err(InvalidPointFormatIdError));
    }
    if caller.ident.globalEncoding > 1 {
      return Creation(caller, None, Err(InvalidGlobalEncodingError));
    }
    if !faults.openOk {
      return Creation(caller, None, Err(LasCreateError));
    }
    var w := HeaderWritten(Session(path, caller, false, Update, true, false, false, 0, 0), [], faults, host);
    if w.result.Err? {
      return Creation(caller, Some(w.file), Err(w.result.error));
    }
    c := Creation(caller, Some(w.file), Ok(w.session.(atEnd := true)));
  }

  /** libslas_update_point_data on one session and its file: the record
      is read into the buffer, its modifiable fields are patched in place
      and the record length of the buffer is written back where it came
      from. */
  method UpdateStep(s: Session, f: seq<Byte>, recnum: int, p: Point<U64>, faults: Faults, host: Endian) returns (st: Step<()>)
    ensures st == UpdatePointIn(s, f, recnum, p, faults, host)
  {
    var g := s.header.geometry;
    if s.mode != Update {
      return Step(s, f, Err(NotOpenForUpdateError));
    }
    if recnum >= g.numberOfPoints || recnum < 0 {
      return Step(s, f, Err(InvalidRecordNumberError));
    }
    if !faults.seekOk {
      return Step(s, f, Err(UpdateFseekError));
    }
    var addr := RecordAddress(s.header, recnum);
    if !ReadOk(f, addr, g.recordLength) {
      return Step(s.(cursor := CursorAfterRead(f, addr, g.recordLength)), f, Err(UpdateReadError));
    }
    var record := Buffer(ReadAt(f, addr, g.recordLength));
    var written := PatchedCopy(record, p, g.pointFormat, s.swap, host, g.recordLength);
    if !faults.writeOk {
      return Step(s.(cursor := addr), f, Err(WriteError));
    }
    st := Step(s.(atEnd := false, pos := addr + g.recordLength, cursor := addr + g.recordLength), Overwrite(f, addr, written), Ok(()));
  }

  /** The record buffer of libslas_update_point_data: a copy of the record
      read, patched in place, of which the first len bytes are written. */
  method PatchedCopy(record: seq<Byte>, p: Point<U64>, fmt: Byte, swap: bool, host: Endian, len: nat) returns (written: seq<Byte>)
    requires |record| >= PointDataSize && len <= |record|
    ensures written == Patched(record, p, fmt, swap, host)[..len]
  {
    var data := new Byte[|record|](i requires 0 <= i < |record| => record[i]);
    assert data[..] == record;
    PatchRecord(data, p, fmt, swap, host);
    written := data[..len];
  }
}
