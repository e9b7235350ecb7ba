/** The parts of a ZIP archive (PKWARE APPNOTE.TXT) the loader reads: local file headers
    (section 4.3.7) with the Zip64 extended information extra field (section 4.5.3), and the
    end of central directory record (section 4.3.16). All fields are little-endian. */
module Zip {
  import opened Bytes
  import opened Results
  import opened Stream

  /** The 32-bit size value that means "see the Zip64 extra field". */
  const SENTINEL: nat := 0xFFFF_FFFF
  /** The header id of the Zip64 extended information extra field. */
  const ZIP64_ID: nat := 0x0001
  const LOCAL_HEADER_SIZE: nat := 30

  /** `NpzEntryInfo`: what the loader keeps of one local file header. */
  datatype EntryInfo = EntryInfo(
    arrayName: string,          // the stored name without its last 4 characters (".npy")
    compressionMethod: nat,     // 0 for stored, anything else is inflated
    compressedByteCount: nat,
    uncompressedByteCount: nat,
    dataOffset: nat)            // where the entry's data starts in the file

  // ---------------------------------------------------------------- Zip64 extra field

  /** The sizes after the Zip64 rewrite, as (compressed, uncompressed). The extra field is
      scanned only when a size is the sentinel, and sizes that are not the sentinel never change. */
  function Zip64Sizes(extra: seq<byte>, compressed: nat, uncompressed: nat): (r: (nat, nat))
    ensures compressed != SENTINEL ==> r.0 == compressed
    ensures uncompressed != SENTINEL ==> r.1 == uncompressed
  {
    if compressed != SENTINEL && uncompressed != SENTINEL then (compressed, uncompressed)
    else Zip64ScanFrom(extra, 0, compressed, uncompressed)
  }

  /** The scan of the extra field's records (2-byte id, 2-byte data size, data) from `idx`,
      while a record header fits, up to the first Zip64 record. */
  function Zip64ScanFrom(extra: seq<byte>, idx: nat, compressed: nat, uncompressed: nat): (r: (nat, nat))
    decreases |extra| - idx
    ensures compressed != SENTINEL ==> r.0 == compressed
    ensures uncompressed != SENTINEL ==> r.1 == uncompressed
  {
    if idx + 4 > |extra| then (compressed, uncompressed)
    else if FieldLE(extra, idx, 2) == ZIP64_ID then Zip64Record(extra, idx + 4, compressed, uncompressed)
    else Zip64ScanFrom(extra, idx + 4 + FieldLE(extra, idx + 2, 2), compressed, uncompressed)
  }

  /** The Zip64 record's data from `at`: the uncompressed size first, then the compressed size,
      each present only for a sentinel size and read only if its 8 bytes are there. */
  function Zip64Record(extra: seq<byte>, at: nat, compressed: nat, uncompressed: nat): (r: (nat, nat))
    ensures compressed != SENTINEL ==> r.0 == compressed
    ensures uncompressed != SENTINEL ==> r.1 == uncompressed
  {
    var readU := uncompressed == SENTINEL && at + 8 <= |extra|;
    var u := if readU then Low32(FieldLE(extra, at, 8)) else uncompressed;
    var at' := if readU then at + 8 else at;
    var c := if compressed == SENTINEL && at' + 8 <= |extra| then Low32(FieldLE(extra, at', 8)) else compressed;
    (c, u)
  }

  /** A rewritten size is the low 32 bits of an 8-byte field lying wholly inside the extra field. */
  lemma Zip64ReadsInside(extra: seq<byte>, compressed: nat, uncompressed: nat)
    ensures var r := Zip64Sizes(extra, compressed, uncompressed);
            && (r.0 == compressed || exists at: nat :: at + 8 <= |extra| && r.0 == Low32(FieldLE(extra, at, 8)))
            && (r.1 == uncompressed || exists at: nat :: at + 8 <= |extra| && r.1 == Low32(FieldLE(extra, at, 8)))
  {
    if compressed == SENTINEL || uncompressed == SENTINEL {
      ScanReadsInside(extra, 0, compressed, uncompressed);
    }
  }

  lemma {:induction false} ScanReadsInside(extra: seq<byte>, idx: nat, compressed: nat, uncompressed: nat)
    ensures var r := Zip64ScanFrom(extra, idx, compressed, uncompressed);
            && (r.0 == compressed || exists at: nat :: at + 8 <= |extra| && r.0 == Low32(FieldLE(extra, at, 8)))
            && (r.1 == uncompressed || exists at: nat :: at + 8 <= |extra| && r.1 == Low32(FieldLE(extra, at, 8)))
    decreases |extra| - idx
  {
    if idx + 4 <= |extra| && FieldLE(extra, idx, 2) != ZIP64_ID {
      ScanReadsInside(extra, idx + 4 + FieldLE(extra, idx + 2, 2), compressed, uncompressed);
    }
  }

  /** The Zip64 fix of `parse_npz_entry`: the loop over the extra field's records that
      overwrites the sentinel sizes. */
  method ResolveZip64(extra: seq<byte>, compressed: nat, uncompressed: nat) returns (c: nat, u: nat)
    ensures (c, u) == Zip64Sizes(extra, compressed, uncompressed)
  {
    c, u := compressed, uncompressed;
    if c == SENTINEL || u == SENTINEL {
      var idx := 0;
      while idx + 4 <= |extra|
        invariant Zip64Sizes(extra, compressed, uncompressed) == Zip64ScanFrom(extra, idx, c, u)
        decreases |extra| - idx
      {
        var headerId := FieldLE(extra, idx, 2);
        var dataSize := FieldLE(extra, idx + 2, 2);
        if headerId == ZIP64_ID {
          var zip64Idx := idx + 4;
          if u == SENTINEL && zip64Idx + 8 <= |extra| {
            u := Low32(FieldLE(extra, zip64Idx, 8));
            zip64Idx := zip64Idx + 8;
          }
          if c == SENTINEL && zip64Idx + 8 <= |extra| {
            c := Low32(FieldLE(extra, zip64Idx, 8));
            zip64Idx := zip64Idx + 8;
          }
          return;
        }
        idx := idx + 4 + dataSize;
      }
    }
  }

  // ---------------------------------------------------------------- local file header

  /** `parse_npz_entry` on the bytes from `pos`: the entry (None for "no more entries") and how
      many bytes it consumed. "No more entries" when fewer than 30 header bytes are left, when
      bytes 2 and 3 are not 0x03 0x04, or when the name or the extra field is cut short.
      A name shorter than 4 bytes makes the library erase before the start of the string. */
  function ParseEntry(data: seq<byte>, pos: nat): (r: Step<Option<EntryInfo>>)
    ensures r.consumed <= |Rest(data, pos)|
    ensures r.result.Ok? && r.result.value.Some? ==>
              && r.result.value.value.dataOffset == pos + r.consumed
              && LOCAL_HEADER_SIZE <= r.consumed
  {
    var s := Rest(data, pos);
    var header := Take(s, 30);
    if |header| != 30 then Step(Ok(None), |header|)
    else if header[2] != 0x03 || header[3] != 0x04 then Step(Ok(None), 30)
    else
      var tail := EntryAfterHeader(header, s[30..], pos + 30);
      Step(tail.result, 30 + tail.consumed)
  }

  /** The rest of `parse_npz_entry` once a 30-byte header with the right signature has been
      read at `at - 30`: the name, the extra field and the Zip64 fix, from the bytes `s`. */
  function EntryAfterHeader(header: seq<byte>, s: seq<byte>, at: nat): (r: Step<Option<EntryInfo>>)
    requires |header| == 30
    ensures r.consumed <= |s|
    ensures r.result.Ok? && r.result.value.Some? ==> r.result.value.value.dataOffset == at + r.consumed
    ensures var nameLen, extraLen := FieldLE(header, 26, 2), FieldLE(header, 28, 2);
            && (|s| < nameLen ==> r == Step(Ok(None), |s|))
            && (nameLen <= |s| && nameLen < 4 ==> r.result.Err?)
            && (4 <= nameLen <= |s| < nameLen + extraLen ==> r == Step(Ok(None), |s|))
            && (4 <= nameLen && nameLen + extraLen <= |s| ==>
                  r.result.Ok? && r.result.value.Some? && r.consumed == nameLen + extraLen)
  {
    var nameLen := FieldLE(header, 26, 2);
    var extraLen := FieldLE(header, 28, 2);
    var name := Take(s, nameLen);
    if |name| != nameLen then Step(Ok(None), |name|)
    else if nameLen < 4 then
      Step(Err(UndefinedBehaviour("erase before the start of a name shorter than 4 bytes")), nameLen)
    else
      var extra := Take(s[nameLen..], extraLen);
      if |extra| != extraLen then Step(Ok(None), nameLen + |extra|)
      else
        var sizes := Zip64Sizes(extra, FieldLE(header, 18, 4), FieldLE(header, 22, 4));
        var info := EntryInfo(Chars(name[..nameLen - 4]), FieldLE(header, 8, 2), sizes.0, sizes.1,
                              at + nameLen + extraLen);
        Step(Ok(Some(info)), nameLen + extraLen)
  }

  /** A local header with the right signature whose file name, or (for a name of at least 4
      bytes) whose extra field, runs past the end of the file means "no more entries": the
      whole rest of the file is consumed and nothing is reported. */
  lemma EntryCutShort(data: seq<byte>, pos: nat)
    requires var s := Rest(data, pos);
             && 30 <= |s| && s[2] == 0x03 && s[3] == 0x04
             && (|s| < 30 + FieldLE(s, 26, 2)
                 || (4 <= FieldLE(s, 26, 2) && |s| < 30 + FieldLE(s, 26, 2) + FieldLE(s, 28, 2)))
    ensures ParseEntry(data, pos) == Step(Ok(None), |Rest(data, pos)|)
  {
    var s := Rest(data, pos);
    assert s == s[..30] + s[30..];
    FieldOfPrefix(s[..30], s[30..], 26, 2);
    FieldOfPrefix(s[..30], s[30..], 28, 2);
  }

  /** `parse_npz_entry(FILE* fp, NpzEntryInfo& info)`. */
  method ParseNpzEntry(f: File) returns (r: Result<Option<EntryInfo>>)
    modifies f
    ensures r == ParseEntry(f.data, old(f.pos)).result
    ensures f.pos == old(f.pos) + ParseEntry(f.data, old(f.pos)).consumed
  {
    ghost var s := Rest(f.data, f.pos);
    var localHeader := f.Read(30);
    if |localHeader| != 30 {
      return Ok(None);
    }
    if localHeader[2] != 0x03 || localHeader[3] != 0x04 {
      return Ok(None);
    }
    assert Rest(f.data, f.pos) == s[30..];
    r := ReadEntryAfterHeader(f, localHeader);
  }

  /** The second half of `parse_npz_entry`, from the file name on. */
  method ReadEntryAfterHeader(f: File, localHeader: seq<byte>) returns (r: Result<Option<EntryInfo>>)
    requires |localHeader| == 30
    modifies f
    ensures r == EntryAfterHeader(localHeader, Rest(f.data, old(f.pos)), old(f.pos)).result
    ensures f.pos == old(f.pos) + EntryAfterHeader(localHeader, Rest(f.data, old(f.pos)), old(f.pos)).consumed
  {
    ghost var s := Rest(f.data, f.pos);
    var nameByteCount := FieldLE(localHeader, 26, 2);
    var extraFieldByteCount := FieldLE(localHeader, 28, 2);
    var compressionMethod := FieldLE(localHeader, 8, 2);
    var compressedByteCount := FieldLE(localHeader, 18, 4);
    var uncompressedByteCount := FieldLE(localHeader, 22, 4);
    var name := f.Read(nameByteCount);
    if |name| != nameByteCount {
      return Ok(None);
    }
    if nameByteCount < 4 {
      return Err(UndefinedBehaviour("erase before the start of a name shorter than 4 bytes"));
    }
    var arrayName := Chars(name[..nameByteCount - 4]);
    assert Rest(f.data, f.pos) == s[nameByteCount..];
    var extraField: seq<byte> := [];
    if extraFieldByteCount > 0 {
      extraField := f.Read(extraFieldByteCount);
      if |extraField| != extraFieldByteCount {
        return Ok(None);
      }
    }
    compressedByteCount, uncompressedByteCount :=
      ResolveZip64(extraField, compressedByteCount, uncompressedByteCount);
    r := Ok(Some(EntryInfo(arrayName, compressionMethod, compressedByteCount, uncompressedByteCount, f.Tell())));
  }

  // ---------------------------------------------------------------- end of central directory

  /** What `parse_zip_footer` returns. */
  datatype Footer = Footer(recordCount: nat, centralDirectorySize: nat, centralDirectoryOffset: nat)

  /** `parse_zip_footer` on a file's bytes: the last 22 bytes as the end of central directory
      record. A file shorter than that fails to read; otherwise the four debug-build assertions
      must hold: disk number 0, central directory starting on disk 0, as many records on this
      disk as in total, and no comment. The signature is not checked. */
  function FooterOf(data: seq<byte>): (r: Result<Footer>)
    ensures r.Ok? <==> && |data| >= 22
                       && FieldLE(data, |data| - 18, 2) == 0
                       && FieldLE(data, |data| - 16, 2) == 0
                       && FieldLE(data, |data| - 14, 2) == FieldLE(data, |data| - 12, 2)
                       && FieldLE(data, |data| - 2, 2) == 0
    ensures r.Ok? ==> r.value == Footer(FieldLE(data, |data| - 12, 2), FieldLE(data, |data| - 10, 4),
                                        FieldLE(data, |data| - 6, 4))
  {
    if |data| < 22 then Err(RuntimeError("parse_zip_footer: failed fread"))
    else
      var footer := data[|data| - 22..];
      var k := |data| - 22;
      FieldOfSuffix(data, k, 4, 2);
      FieldOfSuffix(data, k, 6, 2);
      FieldOfSuffix(data, k, 8, 2);
      FieldOfSuffix(data, k, 10, 2);
      FieldOfSuffix(data, k, 12, 4);
      FieldOfSuffix(data, k, 16, 4);
      FieldOfSuffix(data, k, 20, 2);
      FieldsOfFooter(footer)
  }

  /** The fields of the 22-byte record, with the four invariants checked in the library's order. */
  function FieldsOfFooter(footer: seq<byte>): (r: Result<Footer>)
    requires |footer| == 22
  {
    var diskNo := FieldLE(footer, 4, 2);
    var diskStart := FieldLE(footer, 6, 2);
    var recordsOnDisk := FieldLE(footer, 8, 2);
    var records := FieldLE(footer, 10, 2);
    var size := FieldLE(footer, 12, 4);
    var offset := FieldLE(footer, 16, 4);
    var commentLen := FieldLE(footer, 20, 2);
    if diskNo != 0 then Err(AssertionFailed("disk_no == 0"))
    else if diskStart != 0 then Err(AssertionFailed("disk_start == 0"))
    else if recordsOnDisk != records then Err(AssertionFailed("nrecs_on_disk == nrecs"))
    else if commentLen != 0 then Err(AssertionFailed("comment_len == 0"))
    else Ok(Footer(records, size, offset))
  }

  /** `parse_zip_footer(FILE* fp, ...)`. */
  method ParseZipFooter(f: File) returns (r: Result<Footer>)
    modifies f
    ensures r == FooterOf(f.data)
    ensures f.pos == if |f.data| >= 22 || old(f.pos) <= |f.data| then |f.data| else old(f.pos)
  {
    var ok := f.SeekFromEnd(22);
    var footer := f.Read(22);
    if |footer| != 22 {
      return Err(RuntimeError("parse_zip_footer: failed fread"));
    }
    assert footer == f.data[|f.data| - 22..];
    r := FieldsOfFooter(footer);
  }

  // ---------------------------------------------------------------- writing, and reading back

  /** A local file header as a ZIP writer lays it out (version 20, no flags, zero time and date). */
  function LocalHeader(compression: nat, crc: nat, compressed: nat, uncompressed: nat, nameLen: nat, extraLen: nat): (h: seq<byte>)
    requires compression < TWO_16 && crc < TWO_32 && compressed < TWO_32 && uncompressed < TWO_32
    requires nameLen < TWO_16 && extraLen < TWO_16
    ensures |h| == 30
  {
    HeaderFront(compression, crc) + HeaderSizes(compressed, uncompressed, nameLen, extraLen)
  }

  /** Offsets 0 to 17: signature, version, flags, method, time, date and CRC-32. */
  function HeaderFront(compression: nat, crc: nat): (r: seq<byte>)
    requires compression < TWO_16 && crc < TWO_32
    ensures |r| == 18 && r[2] == 0x03 && r[3] == 0x04 && FieldLE(r, 8, 2) == compression
  {
    var r := [0x50, 0x4B, 0x03, 0x04] + LE16(20) + LE16(0) + LE16(compression) + LE16(0) + LE16(0) + LE32(crc);
    assert r[8..10] == LE16(compression);
    r
  }

  /** Offsets 18 to 29: the two sizes and the two lengths. */
  function HeaderSizes(compressed: nat, uncompressed: nat, nameLen: nat, extraLen: nat): (r: seq<byte>)
    requires compressed < TWO_32 && uncompressed < TWO_32 && nameLen < TWO_16 && extraLen < TWO_16
    ensures |r| == 12
    ensures FieldLE(r, 0, 4) == compressed && FieldLE(r, 4, 4) == uncompressed
    ensures FieldLE(r, 8, 2) == nameLen && FieldLE(r, 10, 2) == extraLen
  {
    var r := LE32(compressed) + LE32(uncompressed) + LE16(nameLen) + LE16(extraLen);
    assert r[0..4] == LE32(compressed);
    assert r[4..8] == LE32(uncompressed);
    assert r[8..10] == LE16(nameLen);
    assert r[10..12] == LE16(extraLen);
    r
  }

  lemma LocalHeaderFields(compression: nat, crc: nat, compressed: nat, uncompressed: nat, nameLen: nat, extraLen: nat)
    requires compression < TWO_16 && crc < TWO_32 && compressed < TWO_32 && uncompressed < TWO_32
    requires nameLen < TWO_16 && extraLen < TWO_16
    ensures var h := LocalHeader(compression, crc, compressed, uncompressed, nameLen, extraLen);
            && h[2] == 0x03 && h[3] == 0x04
            && FieldLE(h, 8, 2) == compression && FieldLE(h, 18, 4) == compressed
            && FieldLE(h, 22, 4) == uncompressed && FieldLE(h, 26, 2) == nameLen
            && FieldLE(h, 28, 2) == extraLen
  {
    var front := HeaderFront(compression, crc);
    var sizes := HeaderSizes(compressed, uncompressed, nameLen, extraLen);
    assert (front + sizes)[8..10] == front[8..10];
    FieldOfConcat(front, sizes, 0, 4);
    FieldOfConcat(front, sizes, 4, 4);
    FieldOfConcat(front, sizes, 8, 2);
    FieldOfConcat(front, sizes, 10, 2);
  }

  /** What follows a good local header: a name of at least 4 bytes and a complete extra field. */
  lemma EntryAfterGoodHeader(header: seq<byte>, name: seq<byte>, extra: seq<byte>, rest: seq<byte>, at: nat,
                             info: EntryInfo)
    requires |header| == 30 && FieldLE(header, 26, 2) == |name| && FieldLE(header, 28, 2) == |extra|
    requires 4 <= |name|
    requires var sizes := Zip64Sizes(extra, FieldLE(header, 18, 4), FieldLE(header, 22, 4));
             info == EntryInfo(Chars(name[..|name| - 4]), FieldLE(header, 8, 2), sizes.0, sizes.1, at + |name| + |extra|)
    ensures EntryAfterHeader(header, name + extra + rest, at) == Step(Ok(Some(info)), |name| + |extra|)
  {
    assert Take(name + extra + rest, |name|) == name;
    assert (name + extra + rest)[|name|..] == extra + rest;
    assert Take(extra + rest, |extra|) == extra;
  }

  /** Where a whole 30-byte header with the local signature is what is left, the entry is
      what follows it. */
  lemma ParseEntryAfterHeader(data: seq<byte>, pos: nat, header: seq<byte>, after: seq<byte>)
    requires |header| == 30 && header[2] == 0x03 && header[3] == 0x04
    requires Rest(data, pos) == header + after
    ensures var tail := EntryAfterHeader(header, after, pos + 30);
            ParseEntry(data, pos) == Step(tail.result, 30 + tail.consumed)
  {
    assert Take(Rest(data, pos), 30) == header;
    assert Rest(data, pos)[30..] == after;
  }

  /** An entry written as local header, name, extra field and data is read back: its name
      without the ".npy" suffix, its method, its sizes after the Zip64 fix, and the offset of
      its data; `parse_npz_entry` leaves the file at that offset. */
  lemma ParseEntryRoundTrip(data: seq<byte>, pos: nat, compression: nat, crc: nat, compressed: nat,
                            uncompressed: nat, name: seq<byte>, extra: seq<byte>, rest: seq<byte>, info: EntryInfo)
    requires compression < TWO_16 && crc < TWO_32 && compressed < TWO_32 && uncompressed < TWO_32
    requires 4 <= |name| < TWO_16 && |extra| < TWO_16
    requires Rest(data, pos) == LocalHeader(compression, crc, compressed, uncompressed, |name|, |extra|) + name + extra + rest
    requires var sizes := Zip64Sizes(extra, compressed, uncompressed);
             info == EntryInfo(Chars(name[..|name| - 4]), compression, sizes.0, sizes.1, pos + 30 + |name| + |extra|)
    ensures ParseEntry(data, pos) == Step(Ok(Some(info)), 30 + |name| + |extra|)
  {
    LocalHeaderFields(compression, crc, compressed, uncompressed, |name|, |extra|);
    var h := LocalHeader(compression, crc, compressed, uncompressed, |name|, |extra|);
    assert Rest(data, pos) == h + (name + extra + rest);
    ParseEntryAfterHeader(data, pos, h, name + extra + rest);
    EntryAfterGoodHeader(h, name, extra, rest, pos + 30, info);
  }

  /** An extra-field record: 2-byte id, 2-byte data size, data. */
  function ExtraRecord(id: nat, body: seq<byte>): (r: seq<byte>)
    requires id < TWO_16 && |body| < TWO_16
    ensures |r| == 4 + |body|
  {
    LE16(id) + LE16(|body|) + body
  }

  /** The data of a Zip64 record for a header with the given 32-bit sizes: the real uncompressed
      size if that one is the sentinel, then the real compressed size if that one is. */
  function Zip64Body(compressed: nat, uncompressed: nat, compressed64: nat, uncompressed64: nat): (r: seq<byte>)
    requires compressed64 < TWO_64 && uncompressed64 < TWO_64
    ensures |r| <= 16
  {
    (if uncompressed == SENTINEL then LE64(uncompressed64) else [])
      + (if compressed == SENTINEL then LE64(compressed64) else [])
  }

  lemma RecordShift(p: seq<byte>, rest: seq<byte>, at: nat, compressed: nat, uncompressed: nat)
    ensures Zip64Record(p + rest, |p| + at, compressed, uncompressed) == Zip64Record(rest, at, compressed, uncompressed)
  {
    if at + 8 <= |rest| {
      FieldOfConcat(p, rest, at, 8);
    }
    if at + 16 <= |rest| {
      FieldOfConcat(p, rest, at + 8, 8);
    }
  }

  /** Bytes in front of the scan position do not change what the scan finds. */
  lemma {:induction false} ScanShift(p: seq<byte>, rest: seq<byte>, idx: nat, compressed: nat, uncompressed: nat)
    ensures Zip64ScanFrom(p + rest, |p| + idx, compressed, uncompressed) == Zip64ScanFrom(rest, idx, compressed, uncompressed)
    decreases |rest| - idx
  {
    if idx + 4 <= |rest| {
      FieldOfConcat(p, rest, idx, 2);
      FieldOfConcat(p, rest, idx + 2, 2);
      if FieldLE(rest, idx, 2) == ZIP64_ID {
        RecordShift(p, rest, idx + 4, compressed, uncompressed);
      } else {
        ScanShift(p, rest, idx + 4 + FieldLE(rest, idx + 2, 2), compressed, uncompressed);
      }
    }
  }

  /** A record with another id is stepped over whole. */
  lemma SkipsOtherRecord(id: nat, body: seq<byte>, rest: seq<byte>, compressed: nat, uncompressed: nat)
    requires id < TWO_16 && |body| < TWO_16 && id != ZIP64_ID
    ensures Zip64Sizes(ExtraRecord(id, body) + rest, compressed, uncompressed) == Zip64Sizes(rest, compressed, uncompressed)
  {
    var r := ExtraRecord(id, body);
    var e := r + rest;
    assert e[0..2] == LE16(id);
    assert e[2..4] == LE16(|body|);
    ScanShift(r, rest, 0, compressed, uncompressed);
  }

  /** The Zip64 equivalence: a header whose sizes are sentinels, followed by a Zip64 record that
      holds the real sizes, resolves to the real sizes (truncated to 32 bits), and a size that
      is not the sentinel is kept. */
  lemma Zip64RecordResolves(compressed: nat, uncompressed: nat, compressed64: nat, uncompressed64: nat, rest: seq<byte>)
    requires compressed64 < TWO_64 && uncompressed64 < TWO_64
    ensures Zip64Sizes(ExtraRecord(ZIP64_ID, Zip64Body(compressed, uncompressed, compressed64, uncompressed64)) + rest,
                       compressed, uncompressed)
            == (if compressed == SENTINEL then Low32(compressed64) else compressed,
                if uncompressed == SENTINEL then Low32(uncompressed64) else uncompressed)
  {
    if compressed == SENTINEL || uncompressed == SENTINEL {
      var body := Zip64Body(compressed, uncompressed, compressed64, uncompressed64);
      var head := LE16(ZIP64_ID) + LE16(|body|);
      assert ExtraRecord(ZIP64_ID, body) + rest == head + (body + rest);
      FieldOfPrefix(head, body + rest, 0, 2);
      FieldOfPrefix(LE16(ZIP64_ID), LE16(|body|), 0, 2);
      RecordShift(head, body + rest, 0, compressed, uncompressed);
      Zip64BodyRead(compressed, uncompressed, compressed64, uncompressed64, rest);
    }
  }

  /** The data of a Zip64 record is read back as the sizes it holds. */
  lemma Zip64BodyRead(compressed: nat, uncompressed: nat, compressed64: nat, uncompressed64: nat, rest: seq<byte>)
    requires compressed64 < TWO_64 && uncompressed64 < TWO_64
    ensures Zip64Record(Zip64Body(compressed, uncompressed, compressed64, uncompressed64) + rest, 0,
                        compressed, uncompressed)
            == (if compressed == SENTINEL then Low32(compressed64) else compressed,
                if uncompressed == SENTINEL then Low32(uncompressed64) else uncompressed)
  {
    var c := if compressed == SENTINEL then LE64(compressed64) else [];
    if uncompressed == SENTINEL {
      assert Zip64Body(compressed, uncompressed, compressed64, uncompressed64) + rest == LE64(uncompressed64) + (c + rest);
      FieldOfPrefix(LE64(uncompressed64), c + rest, 0, 8);
      assert LE64(uncompressed64)[0..8] == LE64(uncompressed64);
      if compressed == SENTINEL {
        FieldOfConcat(LE64(uncompressed64), c + rest, 0, 8);
        FieldOfPrefix(c, rest, 0, 8);
        assert c[0..8] == c;
      }
    } else if compressed == SENTINEL {
      assert Zip64Body(compressed, uncompressed, compressed64, uncompressed64) + rest == c + rest;
      FieldOfPrefix(c, rest, 0, 8);
      assert c[0..8] == c;
    }
  }

  /** The end of central directory record a ZIP writer puts last, for an archive on one disk
      without a comment. */
  function EncodeFooter(records: nat, size: nat, offset: nat): (r: seq<byte>)
    requires records < TWO_16 && size < TWO_32 && offset < TWO_32
    ensures |r| == 22
  {
    [0x50, 0x4B, 0x05, 0x06] + LE16(0) + LE16(0) + LE16(records) + LE16(records)
      + LE32(size) + LE32(offset) + LE16(0)
  }

  /** Whatever comes before it, the record a writer puts last is read back. */
  lemma FooterRoundTrip(prefix: seq<byte>, records: nat, size: nat, offset: nat)
    requires records < TWO_16 && size < TWO_32 && offset < TWO_32
    ensures FooterOf(prefix + EncodeFooter(records, size, offset)) == Ok(Footer(records, size, offset))
  {
    var f := EncodeFooter(records, size, offset);
    assert f[4..6] == LE16(0) && f[6..8] == LE16(0) && f[20..22] == LE16(0);
    assert f[8..10] == LE16(records) && f[10..12] == LE16(records);
    assert f[12..16] == LE32(size) && f[16..20] == LE32(offset);
    FieldOfConcat(prefix, f, 4, 2);
    FieldOfConcat(prefix, f, 6, 2);
    FieldOfConcat(prefix, f, 8, 2);
    FieldOfConcat(prefix, f, 10, 2);
    FieldOfConcat(prefix, f, 12, 4);
    FieldOfConcat(prefix, f, 16, 4);
    FieldOfConcat(prefix, f, 20, 2);
  }
}
