/** Variable length records: the 54-byte sub-header libslas_append_vlr_record
    writes with five fwrite calls, and the walk from the end of the public
    header that libslas_read_vlr_header and libslas_read_vlr_data make to
    reach record `recnum`. */
module LasVlr {
  import opened Bytes
  import opened ByteOrder
  import opened LasHeader
  import opened Stream
  import opened LasErrors

  /** reserved (2) + user_id (16) + record_id (2) + record_length_after_header
      (2) + description (32). */
  const SubHeaderSize: nat := 54

  /** LIBSLAS_VLR_HEADER; user_id[17] and description[33] are kept as the 16
      and 32 bytes that travel to and from the file. */
  datatype VlrHeader = VlrHeader(reserved: U16, userId: Bytes16, recordId: U16, recordLength: U16, description: Bytes32)

  /** The five fields written one after the other, in host byte order. */
  function PackSubHeader(v: VlrHeader, host: Endian): (b: seq<Byte>)
    ensures |b| == SubHeaderSize
    ensures b[18..20] == Put16(v.recordId, host) && b[20..22] == Put16(v.recordLength, host)
  {
    Put16(v.reserved, host) + v.userId + Put16(v.recordId, host) + Put16(v.recordLength, host) + v.description
  }

  /** The five fields read one after the other; with swapping on, only the
      record id and the record length are reversed. */
  function ParseSubHeader(b: seq<Byte>, swap: bool, host: Endian): VlrHeader
    requires |b| == SubHeaderSize
  {
    var id := Get16(b[18..20], host);
    var len := Get16(b[20..22], host);
    VlrHeader(Get16(b[0..2], host), b[2..18], if swap then SwapU16(id, host) else id,
              if swap then SwapU16(len, host) else len, b[22..])
  }

  /** A sub-header read back with swapping off is the one written. */
  lemma ParsePackSubHeader(v: VlrHeader, host: Endian)
    ensures ParseSubHeader(PackSubHeader(v, host), false, host) == v
  {
    var b := PackSubHeader(v, host);
    assert b[0..2] == Put16(v.reserved, host);
    assert b[2..18] == v.userId;
    assert b[22..] == v.description;
    Get16Put16(v.reserved, host);
    Get16Put16(v.recordId, host);
    Get16Put16(v.recordLength, host);
  }

  /** Where the walk stops: at the wanted sub-header, read from `at`, or on a
      short read that leaves the stream at `cursor`. */
  datatype Walked = Found(header: VlrHeader, at: nat) | Short(cursor: nat)

  /** The walk as written: read a sub-header at p; if it is not the k-th
      still to go, seek to p plus its record length and read the next. The
      stride leaves out the 54 bytes of the sub-header itself. */
  function Walk(f: seq<Byte>, p: nat, k: nat, swap: bool, host: Endian): (w: Walked)
    decreases k
    ensures w.Found? ==> ReadOk(f, w.at, SubHeaderSize)
    ensures w.Found? && k == 0 ==> w.at == p
  {
    if !ReadOk(f, p, SubHeaderSize) then Short(CursorAfterRead(f, p, SubHeaderSize))
    else
      var h := ParseSubHeader(ReadAt(f, p, SubHeaderSize), swap, host);
      if k == 0 then Found(h, p) else Walk(f, p + h.recordLength, k - 1, swap, host)
  }

  /** Past a sub-header that is not the one wanted, the walk goes on from
      the position its record length gives. */
  lemma WalkOn(f: seq<Byte>, p: nat, k: nat, swap: bool, host: Endian)
    ensures !ReadOk(f, p, SubHeaderSize) ==> Walk(f, p, k, swap, host) == Short(CursorAfterRead(f, p, SubHeaderSize))
    ensures ReadOk(f, p, SubHeaderSize) && k == 0 ==>
      Walk(f, p, k, swap, host) == Found(ParseSubHeader(ReadAt(f, p, SubHeaderSize), swap, host), p)
    ensures ReadOk(f, p, SubHeaderSize) && k > 0 ==>
      Walk(f, p, k, swap, host) == Walk(f, p + ParseSubHeader(ReadAt(f, p, SubHeaderSize), swap, host).recordLength, k - 1, swap, host)
  {
  }

  /** The for loop of libslas_read_vlr_header and libslas_read_vlr_data,
      from the seek to header_size up to the break at `recnum`. */
  method WalkTo(f: seq<Byte>, start: nat, recnum: nat, swap: bool, host: Endian) returns (w: Walked)
    ensures w == Walk(f, start, recnum, swap, host)
  {
    var pos: nat := start;
    var i: nat := 0;
    while true
      invariant i <= recnum && Walk(f, pos, recnum - i, swap, host) == Walk(f, start, recnum, swap, host)
      decreases recnum - i
    {
      WalkOn(f, pos, recnum - i, swap, host);
      if !ReadOk(f, pos, SubHeaderSize) {
        return Short(CursorAfterRead(f, pos, SubHeaderSize));
      }
      var h := ParseSubHeader(ReadAt(f, pos, SubHeaderSize), swap, host);
      if i == recnum {
        return Found(h, pos);
      }
      pos := pos + h.recordLength;
      i := i + 1;
    }
  }


  /** The bytes libslas_append_vlr_record adds on success: the sub-header
      with its reserved field cleared, then record_length_after_header bytes
      of payload. */
  function Appended(v: VlrHeader, data: seq<Byte>, host: Endian): (b: seq<Byte>)
    requires v.recordLength <= |data|
    ensures |b| == SubHeaderSize + v.recordLength
    ensures b[..SubHeaderSize] == PackSubHeader(v.(reserved := 0), host)
    ensures b[SubHeaderSize..] == data[..v.recordLength]
  {
    PackSubHeader(v.(reserved := 0), host) + data[..v.recordLength]
  }

  /** The payload libslas_read_vlr_data reads after the sub-header found at
      `at`; a zero length fails like a short read, as fread of zero bytes
      reports no item read. */
  function Payload(f: seq<Byte>, at: nat, len: U16): (r: Option<seq<Byte>>)
    ensures r.Some? <==> ReadOk(f, at + SubHeaderSize, len)
    ensures r.Some? ==> |r.value| == len
  {
    if ReadOk(f, at + SubHeaderSize, len) then Some(ReadAt(f, at + SubHeaderSize, len)) else None
  }

  /** The first record appended after the header is the one found for
      recnum 0, with its reserved field cleared, and its payload reads back
      when it is not empty. */
  lemma {:induction false} FirstAppendedReadsBack(base: seq<Byte>, v: VlrHeader, data: seq<Byte>, rest: seq<Byte>, host: Endian)
    requires v.recordLength <= |data|
    ensures var f := base + Appended(v, data, host) + rest;
            Walk(f, |base|, 0, false, host) == Found(v.(reserved := 0), |base|)
    ensures var f := base + Appended(v, data, host) + rest;
            Payload(f, |base|, v.recordLength) == if v.recordLength == 0 then None else Some(data[..v.recordLength])
  {
    var a := Appended(v, data, host);
    var f := base + a + rest;
    assert ReadAt(f, |base|, SubHeaderSize) == a[..SubHeaderSize];
    ParsePackSubHeader(v.(reserved := 0), host);
    if v.recordLength > 0 {
      assert f[|base| + SubHeaderSize..|base| + SubHeaderSize + v.recordLength] == a[SubHeaderSize..];
    }
  }

  /** As written, the walk looks for the record after the first at the first
      one's start plus its record length, so with two records appended back
      to back it never returns the second where it was written. */
  lemma {:induction false} SecondAppendedIsMissed(base: seq<Byte>, v0: VlrHeader, d0: seq<Byte>, v1: VlrHeader, d1: seq<Byte>, host: Endian)
    requires v0.recordLength <= |d0| && v1.recordLength <= |d1|
    ensures var f := base + Appended(v0, d0, host) + Appended(v1, d1, host);
            var w := Walk(f, |base|, 1, false, host);
            w.Found? ==> w.at == |base| + v0.recordLength
    ensures var f := base + Appended(v0, d0, host) + Appended(v1, d1, host);
            Walk(f, |base|, 1, false, host) != Found(v1.(reserved := 0), |base| + SubHeaderSize + v0.recordLength)
  {
    var f := base + Appended(v0, d0, host) + Appended(v1, d1, host);
    FirstAppendedReadsBack(base, v0, d0, Appended(v1, d1, host), host);
    assert Walk(f, |base|, 1, false, host) == Walk(f, |base| + v0.recordLength, 0, false, host);
  }
}
