# libslas in Dafny: the LAS 1.2 record codec and session table

This project models the core of libslas, a small C library that reads,
creates and updates LAS 1.2 point-cloud files. It covers `libslas.c` and the
byte-order helpers in `libslas_pd_functions.h`. A LAS file is laid out as:

- a 227-byte header;
- a chain of variable-length records (VLRs), each a 54-byte sub-header and
  then a payload;
- fixed-width point records of 20, 28, 26 or 34 bytes, for point formats 0–3.

The model has these layers:

- **Bytes, ByteOrder.** A host's memory layout of an integer (`ToMem`/`FromMem`,
  with the host byte order as a parameter of type `Endian`) and the three swap
  helpers. Doubles are handled as their 64-bit IEEE patterns. `SwapDoubleInPlace`
  keeps the C routine's loop over an 8-byte array.
- **Doubles.** What the library does with the values of doubles:
  - the `MIN`/`MAX` macros under C's `<`, which orders the infinities and is false for a NaN;
  - `NINT64`;
  - the ±99999999999999.0 sentinels that create puts in the bounds;
  - quantisation of coordinates with scale and offset.
- **Stream.** A file is a byte sequence. `fread`/`fwrite` count whole items, so
  a zero-length transfer fails. Whether each open, seek, write and close
  succeeds is a `Faults` parameter of every call.
- **LasHeader.** The 227-byte buffer that `libslas_write_header` packs and
  `libslas_read_header` unpacks. It also covers the header swap pass, the
  signature check and the version check.
- **LasPoint.** Encoding and decoding of the point record:
  - bit packing of the returns and classification bytes;
  - the GPS and RGB parts that depend on the format;
  - the partial rewrite done by `libslas_update_point_data`. `PatchRecord`
    does it in place on the record buffer, as the C code does.
- **LasVlr.** The VLR sub-header codec and the chain walk. `WalkTo` is the C
  loop and is proved equal to the recursive `Walk`.
- **LasSession.** Each entry point as a function. It takes the session, the
  file's bytes and the faults, and gives the new session, the new file and
  the result.
- **LasSessionFacts, LasRecordFacts.** What those functions guarantee:
  - outcome and error lemmas;
  - round trips between create/close and open, append and read, and update
    and read;
  - the preserved invariant `SessionOk`.
- **Libslas.** The `Library` class. It holds:
  - the 64-slot session table `las` (an array);
  - the files on disk (a map from path to bytes);
  - the host byte order.

  Each entry point is a method, proved equal to its `LasSession` function.
  Some follow the C control flow:
  - the slot search;
  - `libslas_write_header`;
  - `libslas_read_header`;
  - open;
  - close;
  - the VLR header walk.

  Create and update put the C steps in module-level methods:
  - `PrepareHeader`: the standard fields and the per-return tally loop;
  - `CreateStep`;
  - `UpdateStep`;
  - `PatchedCopy`.

  The remaining entry points are thin methods that store the outcome of the
  session function in the table and the file map:
  - read VLR data;
  - append VLR;
  - read point;
  - append point.

Behaviours of the code as written, which the model follows and proves:

- **The VLR walk skips too little.**
  - After the sub-header of record *i* at position *p*, the walk seeks to
    *p* + payload length (libslas.c:991). It does not add the 54 sub-header
    bytes.
  - So in a file with two or more VLRs, record 1 is looked for inside
    record 0 (`LasVlr.SecondAppendedIsMissed`).
  - Record 0 always reads back (`LasVlr.FirstAppendedReadsBack`,
    `LasRecordFacts.FirstVlrReadsBack`).
- **The offset to point data stays 0 without VLRs.**
  - Only `libslas_append_vlr_record` sets the offset to point data
    (libslas.c:1344). A file created without VLRs keeps the 0 that create
    put there.
  - So point 0 is read from offset 0, where the header is
    (`LasRecordFacts.NoVlrFirstRecordIsHeader`). The LAS rule is that the
    offset equals the header size plus the VLR sizes, and that rule does not
    hold here.
- **Append writes at the stream cursor.**
  - `libslas_append_point_data` does not seek, so it writes wherever the
    cursor is.
  - On a stdio that permits a write straight after a read (glibc), an
    append after a read overwrites the record after the one read
    (`LasRecordFacts.AppendAfterReadOverwrites`).
- **Return numbers 4 and 5 do not read back.**
  - The return number is read back through the mask `0x03` (libslas.c:1522).
  - So return numbers 4 and 5, which append accepts, read back as 0 and 1
    (`LasPoint.ReturnsRoundTrip`).
- **A rejected point is still counted.**
  - `libslas_append_point_data` widens the bounds and increments
    `number_of_point_records` (libslas.c:1596-1606) before it checks the
    return number (libslas.c:1611). Only the per-return histogram waits for
    the check (libslas.c:1621).
  - So after a point with return number 0 or above 5, the point count is
    larger than the sum of the histogram, and the bounds include a point
    that was never written (`LasRecordFacts.AppendPointOutcome`).
- **`file_source_id` is never swapped.**
  - The swap pass swaps `global_encoding` at line 156 and never swaps
    `file_source_id`.
  - So on a big-endian host an opened header has that field in file order
    (`LasHeader.OpenedIdentIsLittleEndian`).
- **A created file reads back swapped on a big-endian host.**
  - `libslas_write_header` swaps only when the session swaps. Only open sets
    the swap flag (libslas.c:725), so a created session never swaps.
  - So on a big-endian host, a file that was created and then closed is
    written in host order. When it is opened again, its header comes back
    byte-swapped (`LasSessionFacts.CloseThenOpenOnBigHost`).
  - On a little-endian host the same round trip gives back the header
    unchanged (`LasSessionFacts.CloseThenOpen`).

## Model

| member | source | states |
|---|---|---|
| Bytes.LE | libslas.c:249-285 | a little-endian encoding has exactly the requested number of bytes |
| Bytes.FromLEOfLE | libslas.c:387-422 | decoding the little-endian bytes of a value that fits gives the value back |
| Bytes.LEOfFromLE | libslas.c:387-422 | encoding the decoded value of a byte string gives the same bytes back |
| Bytes.FromLEInjective | libslas.c:387-422 | two byte strings of the same length with the same value are equal |
| Bytes.Reverse | libslas_pd_functions.h:202-222 | element i of the reversal is element n-1-i of the input |
| Bytes.ReverseReverse | libslas_pd_functions.h:202-222 | reversing twice gives the input back |
| Bytes.MemRoundTrip | libslas.c:249-285 | memcpy of a value to bytes and back gives the value, on either host order |
| Bytes.MemOfFromMem | libslas.c:387-422 | memcpy of bytes to a value and back gives the bytes, on either host order |
| Bytes.Signed32 | libslas.c:1452-1454 | the int32 read from a uint32 pattern is in range and wraps back to the pattern |
| Bytes.Signed32OfWrap32 | libslas.c:1679-1681 | storing an in-range int32 and reading it back gives it unchanged |
| Bytes.Signed8 | libslas.c:1452-1482 | the int8 scan angle read from a byte wraps back to that byte |
| ByteOrder.BigEndian | libslas_pd_functions.h:141-151 | the probe returns 3 exactly on a big-endian host and 0 exactly on a little-endian one |
| ByteOrder.SwapU32 | libslas_pd_functions.h:170-183 | byte k of the result is byte 3-k of the input |
| ByteOrder.SwapU32Twice | libslas_pd_functions.h:170-183 | swapping a 32-bit word twice gives it back |
| ByteOrder.SwapU16 | libslas_pd_functions.h:241-256 | the two bytes of the result are those of the input, exchanged |
| ByteOrder.SwapU16Twice | libslas_pd_functions.h:241-256 | swapping a 16-bit word twice gives it back |
| ByteOrder.SwapDouble | libslas_pd_functions.h:202-222 | the eight bytes of a double come out reversed |
| ByteOrder.SwapDoubleInPlace | libslas_pd_functions.h:202-222 | the exchange loop over the 8-byte buffer leaves it reversed |
| ByteOrder.SwapDoubleTwice | libslas_pd_functions.h:202-222 | reversing the bytes of a double twice gives them back |
| ByteOrder.SwapF64 | libslas_pd_functions.h:202-222 | the little-endian bytes of the swapped pattern are those of the input reversed, on either host |
| ByteOrder.SwapF64Twice | libslas_pd_functions.h:202-222 | swapping a double twice gives it back |
| ByteOrder.SwappedU32IsLittleEndianOnBigHost | libslas_pd_functions.h:170-183 | on a big-endian host the memory of a swapped word is the little-endian encoding of the word |
| LasErrors.Code | libslas.h:652-682 | every error code is between -30 and -1 |
| LasErrors.CodesAreDistinct | libslas.h:652-682 | error codes are negative, and two errors share a code exactly when they are the same error |
| Doubles.Min | libslas.c:73 | the result is one of the two inputs, and for finite inputs its value is no greater than either |
| Doubles.Max | libslas.c:69 | the result is one of the two inputs, and for finite inputs its value is no smaller than either |
| Doubles.MinMaxOrdered | libslas.c:69-73 | for inputs that are not NaN, infinities included, no input is below MIN's result or above MAX's in C's order |
| Doubles.InfinitiesInMinMax | libslas.c:69-73 | against any double that is not a NaN, +infinity loses MIN and wins MAX, and -infinity wins MIN and loses MAX |
| Doubles.NaNWinsMinMax | libslas.c:69-73 | with a NaN second operand both macros return the NaN, because every comparison with it is false |
| Doubles.SentinelValues | libslas.c:557-558 | the two sentinel bit patterns are finite doubles of value -99999999999999.0 and 99999999999999.0 |
| Doubles.SentinelsGiveWay | libslas.c:557-558 | any coordinate within the sentinels replaces them in the first MIN and MAX |
| Doubles.Trunc | libslas.c:65 | the cast to int64 truncates toward zero |
| Doubles.Nint | libslas.c:65 | NINT64 rounds to the nearest integer, with halves rounded away from zero |
| Doubles.QuantiseRoundTrip | libslas.c:1626-1628 | quantising with a positive scale and reading back stays within half a scale step of the value |
| Stream.CursorAfterRead | libslas.c:1437 | a whole read moves the cursor by its size; a short read that starts inside the file leaves it at end of file, and one that starts past the end leaves it where it was |
| Stream.Overwrite | libslas.c:288 | writing at a position puts the bytes there, keeps the others and zero-fills any gap past the end |
| Stream.ReadBackWritten | libslas.c:288 | a non-empty write can be read back whole at the same position |
| Stream.OverwriteTwice | libslas.c:1299-1332 | two writes one after the other equal one write of both |
| Stream.OverwriteElsewhere | libslas.c:1575-1734 | a write does not change bytes outside its range |
| LasHeader.Get16Put16 | libslas.c:263 | a 16-bit field stored and loaded with the same host order comes back |
| LasHeader.Get32Put32 | libslas.c:264 | a 32-bit field stored and loaded with the same host order comes back |
| LasHeader.Get64Put64 | libslas.c:274 | a double stored and loaded with the same host order comes back |
| LasHeader.PackIdent | libslas.c:250-258 | the identity part is 26 bytes and starts with "LASF"; the version is at bytes 24 and 25 |
| LasHeader.PackGeometry | libslas.c:261-268 | the geometry part is 21 bytes, with header size, offset, format, record length and point count at their offsets |
| LasHeader.Pack | libslas.c:249-285 | the header buffer is 227 bytes: identity, text, geometry, tally, scales and bounds in that order |
| LasHeader.SwapHeader | libslas.c:152-182 | the swap pass keeps file_source_id, the version, the text fields and the point format |
| LasHeader.SwapHeaderTwice | libslas.c:152-182 | swapping the header twice gives it back |
| LasHeader.UnpackPack | libslas.c:249-285 | unpacking a packed header gives the header back |
| LasHeader.ReceivedPacked | libslas.c:244 | reading a buffer with the same swap flag it was written with gives the header back |
| LasHeader.ReadAfterWrite | libslas.c:387-437 | reading a header buffer written with the same host and swap flag gives the header back, unless it is major 1 with minor above 2 |
| LasHeader.UnswappedWriteSwappedRead | libslas.c:244 | a buffer written without swapping on a big-endian host and read with swapping comes back as the swapped header |
| LasHeader.PackedFields | libslas.c:249-268 | the signature, version, header size, offset, format, record length and point count are at bytes 0, 24-25, 94, 96, 104, 105 and 107 |
| LasHeader.NotLasFileExactly | libslas.c:377-382 | NOT_LAS_FILE is returned exactly when the first four bytes are not "LASF" |
| LasHeader.IncorrectVersionExactly | libslas.c:432-437 | after the signature check, a header is rejected, with INCORRECT_VERSION, exactly when it is major 1 with minor above 2 |
| LasHeader.AcceptedExactly | libslas.c:377-437 | a buffer decodes exactly when it has the signature and is not major 1 with minor above 2 |
| LasHeader.Received | libslas.c:387-427 | the decoded version is the two version bytes as stored |
| LasHeader.OpenedIdentIsLittleEndian | libslas.c:152-160 | on a big-endian host the swapped identity fields equal a little-endian read, except file_source_id, which stays in file order |
| LasHeader.OpenedGeometryIsLittleEndian | libslas.c:161-166 | on a big-endian host the swapped geometry fields equal a little-endian read |
| LasHeader.OpenedTallyIsLittleEndian | libslas.c:168 | on a big-endian host the swapped per-return tally equals a little-endian read |
| LasHeader.OpenedDoublesAreLittleEndian | libslas.c:170-181 | on a big-endian host the swapped scales, offsets and bounds equal a little-endian read |
| LasHeader.OpenedHeaderIsLittleEndian | libslas.c:152-182 | on a big-endian host an opened header is the little-endian reading of the file, except file_source_id |
| LasPoint.RecordLengthCoversFields | libslas.c:560-584 | a record length exists exactly for formats 0-3, and it is 20 plus 8 with GPS plus 6 with RGB, at most 34 |
| LasPoint.UnpackReturns | libslas.c:1522-1525 | the unpacked return number is below 4, the count below 8 and each flag a single bit |
| LasPoint.UnpackClass | libslas.c:1526-1529 | the class is below 32 and each flag a single bit |
| LasPoint.ReturnsRoundTrip | libslas.c:1522-1525 | packing and unpacking returns gives them back with the return number reduced modulo 4 |
| LasPoint.PackUnpackReturns | libslas.c:1633-1637 | repacking an unpacked returns byte gives it back with bit 2 cleared |
| LasPoint.ClassRoundTrip | libslas.c:1638-1642 | packing and unpacking the classification byte gives the fields back |
| LasPoint.PackUnpackClass | libslas.c:1526-1529 | repacking an unpacked classification byte gives the byte back |
| LasPoint.UnpackPackRgb | libslas.c:1703-1709 | the three colour channels read back as written |
| LasPoint.PackBase | libslas.c:1679-1690 | the 20-byte base record carries the returns byte at 14, the classification at 15 and user data at 17 |
| LasPoint.EncodeRecord | libslas.c:1679-1709 | an encoded record is 20 bytes, plus 8 with GPS time, plus 6 with RGB |
| LasPoint.Buffer | libslas.c:1432 | the 34-byte zeroed buffer begins with the bytes read |
| LasPoint.DecodeBase | libslas.c:1452-1464 | decoding the base record gives back each field packed into it |
| LasPoint.DecodeEncode | libslas.c:1452-1482 | decoding an encoded record of format 0-3 gives the stored point: the fields of the format, others zero |
| LasPoint.DecodeReadsRecordOnly | libslas.c:1432-1437 | decoding depends only on the record-length prefix of the buffer |
| LasPoint.CoordRoundTrip | libslas.c:1519-1521 | a coordinate quantised and read back with a positive scale is within half a scale step of the value |
| LasPoint.Splice | libslas.c:1846-1872 | a splice puts the bytes at the position and keeps every other byte |
| LasPoint.PatchedBytes | libslas.c:1823-1872 | the update patch sets classification, user data, point source id and RGB bytes and leaves every other field's bytes as read |
| LasPoint.PatchedReadsBack | libslas.c:1823-1872 | decoding a patched buffer gives the old point with classification, user data, point source id and, for RGB formats, colour replaced |
| LasPoint.PatchedRecordReadsBack | libslas.c:1823-1902 | the same holds for the record-length prefix written back to the file |
| LasPoint.SpliceRgb | libslas.c:1870-1872 | three consecutive 2-byte stores equal one 6-byte splice |
| LasPoint.Store2 | libslas.c:1846 | a 2-byte memcpy into the buffer is a splice of the buffer |
| LasPoint.PatchRecord | libslas.c:1823-1872 | the in-place patch of the record buffer yields the patched bytes |
| LasVlr.PackSubHeader | libslas.c:1299-1332 | the sub-header is 54 bytes with the record id at 18 and the payload length at 20 |
| LasVlr.ParsePackSubHeader | libslas.c:939-981 | parsing a packed sub-header without swapping gives it back |
| LasVlr.Walk | libslas.c:925-1000 | a found sub-header can be read whole at its position; the walk to record 0 finds it at the start |
| LasVlr.WalkOn | libslas.c:939-991 | one step of the walk: a short read stops it, record 0 is the sub-header here, else it moves on by the payload length |
| LasVlr.WalkTo | libslas.c:925-1000 | the C loop over the chain finds what the walk describes |
| LasVlr.Appended | libslas.c:1299-1336 | an appended VLR is the sub-header with reserved zero followed by exactly the payload |
| LasVlr.Payload | libslas.c:1123 | the payload is returned exactly when it can be read whole, and it has the declared length |
| LasVlr.FirstAppendedReadsBack | libslas.c:925-1000 | the first VLR after the header reads back with reserved zero, and its payload reads back when non-empty |
| LasVlr.SecondAppendedIsMissed | libslas.c:991 | the walk to record 1 of two appended VLRs lands inside record 0, not on record 1 |
| LasSession.FirstFree | libslas.c:514-532 | the chosen slot is free and every slot before it is taken |
| LasSessionFacts.CreateOutcome | libslas.c:486-635 | create succeeds exactly for a .las path, format 0-3, encoding 0-1 and a working open, seek and write; each error is returned in the C order |
| LasSessionFacts.PreparedFields | libslas.c:552-587 | create sets version 1.2, header size 227, offset 0, no points, sentinel bounds, a zero tally and the format's record length, and keeps the rest |
| LasSessionFacts.WrittenIntoEmpty | libslas.c:214-307 | writing the header of a new file produces exactly the packed header and leaves the cursor after it |
| LasSessionFacts.CreatedSession | libslas.c:612-625 | a successful create leaves the prepared header in the file and an update session at its end, which keeps SessionOk |
| LasSessionFacts.HeaderReadOutcome | libslas.c:340-451 | reading the header succeeds exactly when the seek works, 227 bytes can be read and the buffer is accepted |
| LasSessionFacts.HeaderReadSession | libslas.c:340-451 | a successful header read gives a session with the received header, swapping on a big-endian host, positioned after the header |
| LasSessionFacts.HeaderReadFields | libslas.c:340-451 | a session from a header read keeps SessionOk, its path and its mode, and is not created |
| LasSessionFacts.HeaderReadDecoded | libslas.c:340-451 | a header that decodes gives the session built from it |
| LasSessionFacts.OpenOutcome | libslas.c:661-793 | open succeeds exactly for a .las path, mode 0 or 1, a working open and a header that reads; a bad mode gives INVALID_MODE |
| LasSessionFacts.OpenDecodable | libslas.c:661-793 | opening a file whose first 227 bytes decode gives a session with that header |
| LasSessionFacts.CloseOutcome | libslas.c:822-870 | close frees the slot exactly when it returns SUCCESS; a created session's header is rewritten at offset 0 when seek and write work |
| LasSessionFacts.CloseRewritesHeader | libslas.c:836-862 | closing a created session with working I/O rewrites the header and frees the slot |
| LasSessionFacts.CloseThenOpen | libslas.c:822-870 | on a little-endian host a created file, closed and opened again, gives back the same header |
| LasSessionFacts.SwappedHeaderSize | libslas.c:162 | 227 byte-swapped is 0xE300 |
| LasSessionFacts.CloseThenOpenOnBigHost | libslas.c:244 | on a big-endian host a created file, closed and opened again, gives back the header byte-swapped, with header size 0xE300 |
| LasRecordFacts.VlrRecordNumberChecked | libslas.c:909-1009 | reading a VLR header or payload returns INVALID_VLR_RECORD_NUMBER exactly for an index outside the VLR count, and never changes the file or header |
| LasRecordFacts.AppendVlrOutcome | libslas.c:1218-1357 | append VLR is refused exactly when the session was not created or has points; on success it writes at the stream position when at_end is set (which can lie past the end after a failed read), otherwise at end of file, and sets the offset to point data to the end of what it wrote |
| LasRecordFacts.FirstVlrReadsBack | libslas.c:1041-1182 | the first VLR appended to a new file reads back, header and payload |
| LasRecordFacts.PointRecordNumberChecked | libslas.c:1398-1423 | read point returns INVALID_RECORD_NUMBER exactly for an index outside the point count and never changes the file or header |
| LasRecordFacts.ReadMovesToNextRecord | libslas.c:1398-1537 | a successful read decodes the record at offset plus index times width and leaves the stream at the next record |
| LasRecordFacts.WidenedContains | libslas.c:1596-1601 | for finite coordinates and finite bounds, after an append the bounds contain the point and contain the old bounds |
| LasRecordFacts.FirstPointSetsBounds | libslas.c:1596-1601 | the first append into sentinel bounds makes them the point itself |
| LasRecordFacts.AppendPointOutcome | libslas.c:1575-1734 | append point is refused on an opened session; otherwise it widens bounds, counts the point, rejects return numbers outside 1-5, then counts the return, and on success writes the record at the cursor |
| LasRecordFacts.ReadWrittenRecord | libslas.c:1415-1437 | a record written at a point's address reads back as that record |
| LasRecordFacts.AppendedRecord | libslas.c:1575-1734 | an accepted append with working I/O writes the encoded record at the old stream position, adds one point, keeps scales and swap flag and leaves the stream after the record |
| LasRecordFacts.AppendThenRead | libslas.c:1575-1734 | a point appended at the end of the records reads back as the stored point |
| LasRecordFacts.AppendAfterReadOverwrites | libslas.c:1714 | an append right after a read of point i overwrites point i+1 |
| LasRecordFacts.NoVlrFirstRecordIsHeader | libslas.c:1415 | with offset to point data 0, point 0 is decoded from the first bytes of the file, where the header is |
| LasRecordFacts.UpdateOutcome | libslas.c:1770-1906 | update is refused exactly on a read-only session, checks the index, succeeds exactly when seek, read and write work, and changes only that record's bytes |
| LasRecordFacts.UpdateWritesBack | libslas.c:1780-1902 | a successful update writes the patched record back at its address and leaves the stream after it |
| LasRecordFacts.UpdateThenRead | libslas.c:1770-1906 | reading an updated point gives the old point with classification, user data, point source id and colour replaced |
| Libslas.Library.constructor | libslas.c:499-509 | the table starts with every slot closed |
| Libslas.Library.FindFreeSlot | libslas.c:514-532 | the slot loop returns the first closed slot, or 64 when none is |
| Libslas.Library.WriteHeader | libslas.c:214-307 | seeks to 0, packs the header and writes it, as the header-write function describes |
| Libslas.Library.Create | libslas.c:486-635 | a full table gives TOO_MANY_OPEN_FILES; otherwise the caller's header, the files, the return value and the table are those of create |
| Libslas.Library.ReadHeader | libslas.c:340-451 | the seek, read, signature check, unpack, swap and version check give the header-read outcome |
| Libslas.Library.Open | libslas.c:661-793 | a full table gives TOO_MANY_OPEN_FILES; otherwise the handle, the caller's header and the table are those of open |
| Libslas.Library.Close | libslas.c:822-870 | a closed handle returns SUCCESS and changes nothing; otherwise the status, slot and file are those of close |
| Libslas.Library.ReadVlrHeader | libslas.c:909-1009 | the walk loop gives the status, the sub-header and the session of the VLR header read |
| Libslas.Library.ReadVlrData | libslas.c:1041-1182 | the status, payload and session are those of the VLR data read |
| Libslas.Library.AppendVlr | libslas.c:1218-1357 | the status, file and session are those of the VLR append; the caller's reserved field is cleared once the append gets past its seek |
| Libslas.Library.ReadPoint | libslas.c:1398-1537 | the status, point and session are those of the point read |
| Libslas.Library.AppendPoint | libslas.c:1575-1734 | the status, file and session are those of the point append |
| Libslas.Library.UpdatePoint | libslas.c:1770-1906 | the status, file and session are those of the point update |
| Libslas.PrepareHeader | libslas.c:552-584 | the record length is that of the format; the caller's header gets the standard fields, and for a valid format the length and a zero tally |
| Libslas.CreateStep | libslas.c:540-625 | the extension, format and encoding checks, the open and the header write give the create outcome |
| Libslas.UpdateStep | libslas.c:1780-1902 | the mode and index checks, seek, read, patch and write back give the update outcome |
| Libslas.PatchedCopy | libslas.c:1813-1872 | patching a copy of the record in a buffer and keeping its record-length prefix gives the patched record |

## Left out

- Error text: `libslas_strerror`, `libslas_perror`, the `libslas_error.info` messages and the three `libslas_dump_*` printers. They only format text for display.
- Signals and exit: `libslas_sigint_handler`, `libslas_clean_exit`, and the first-call `signal` registration. These are process control and are not part of the codec.
- `libslas_version.h` is not part of this model.
- Real I/O is not modelled.
  - Each call takes one `Faults` value, so all its seeks succeed or all fail, and likewise its writes.
  - A failed write writes nothing. Partial writes are not modelled.
  - `ftello64` is the model's cursor.
- Floating point is modelled only in part.
  - Coordinates are read back as exact reals (`raw * scale + offset`). The rounding to double is not modelled.
  - The narrowing of z to `float` on read and append is not modelled.
  - `NINT64` of a value out of int64 range, and of NaN, is undefined behaviour in C. The model rounds the exact quotient and wraps it to the record's int32 (`Wrap32`). `CoordRoundTrip` requires the rounded value to fit.
- A scale factor of 0 is not modelled: C divides by zero there, and the model quantises to 0. `QuantiseRoundTrip` and `CoordRoundTrip` require a positive scale.
- Doubles.Min: for a NaN operand this states only which input is returned (`NaNWinsMinMax`), not an ordering.
- Doubles.Max: for a NaN operand this states only which input is returned (`NaNWinsMinMax`), not an ordering.
- The `modified` and `write` flags are not modelled. No operation of the core reads them.
- The swap branches of the write paths (header write, VLR append, point append) are dead code. A created session never swaps, and `SessionOk` records that. The model takes them out.
- The payload loops for record ids 34735 and 34736 in `libslas_read_vlr_data` and `libslas_append_vlr_record` are left out.
  - When the session swaps, they copy an uninitialised scratch variable over the payload, so the result is unspecified.
  - The model returns and writes the payload as given.
- NUL terminators of the text fields are not modelled. The text fields are fixed-size byte strings.
- Paths shorter than four characters are not modelled. For them the extension check reads before the string, and the model rejects them as not ending in ".las".
- A `point_data_record_length` above 34 in an opened file is not modelled. The C read overruns its 34-byte buffer there, and the model reads the record into a buffer at least as long as the record.
- On a failed read, the caller's record, VLR header or payload may have been partly filled by the C code. The model gives it no value.
- The bytes of the update buffer beyond the record length are uninitialised in C. The model takes them as zeros. They are never written back.
- The read, append and update entry points (`Libslas.Library.ReadVlrHeader`, `ReadVlrData`, `AppendVlr`, `ReadPoint`, `AppendPoint`, `UpdatePoint`) are modelled for open handles only: they require `las[hnd].Some?`.
  - C accepts any slot. A slot zeroed by close (libslas.c:855) or never used has no VLRs, no points and `created` clear, so C returns INVALID_VLR_RECORD_NUMBER (libslas.c:917, 1052), VLR_APPEND_ERROR (libslas.c:1227), INVALID_RECORD_NUMBER (libslas.c:1407, 1790) or APPEND_ERROR (libslas.c:1583).
  - A failed create or open can leave a stale header beside a NULL stream (libslas.c:599 then 617; 388-427 then 771), and a later call then seeks on NULL.
  - The model's closed slot is `None`, so it does not keep the header a closed C slot keeps.
- The model assumes a stdio that lets a write follow a read, and a read follow a write, on the same stream without a positioning call or `fflush`, as glibc does.
  - Section 7.21.5.3 of ISO C 11 leaves both undefined on update streams.
  - Two paths depend on it: an append after a point read (the `fwrite` at libslas.c:1714 with no seek before it), and a read of the record just after an append (the seek skipped at libslas.c:1420).
  - The model follows glibc's logical position (`LasRecordFacts.AppendAfterReadOverwrites`, `LasRecordFacts.AppendThenRead`).
- Concurrent use of the global session table from several threads is not modelled.
- LasPoint.Patched: its own contract states only the length. What it does to each field is stated by `PatchedBytes` and `PatchedReadsBack`.
