/** Loading arrays: from an NPY file, from a stored or deflated entry of an NPZ archive, and
    the two archive loaders (all arrays, or one array by name). The file system is a map from
    file names to contents; a name that is not in it is a file `fopen` cannot open. */
module Loader {
  import opened Bytes
  import opened Results
  import opened Dtype
  import opened NpyHeader
  import opened Stream
  import opened Zip

  /** `cnpy::NpyArray`: what the header declares and the array's bytes. */
  datatype NpyArray = NpyArray(shape: seq<nat>, wordSize: nat, fortranOrder: bool, dtype: NpyType, bytes: seq<byte>)

  /** The number of elements of an array of the given shape (1 for a scalar). */
  function Product(shape: seq<nat>): nat {
    if shape == [] then 1 else shape[0] * Product(shape[1..])
  }

  /** `NpyArray::num_bytes()` for the array a header declares. */
  function NumBytes(h: Header): nat {
    Product(h.shape) * h.wordSize
  }

  function ArrayOf(h: Header, bytes: seq<byte>): NpyArray {
    NpyArray(h.shape, h.wordSize, h.fortranOrder, h.dtype, bytes)
  }

  type FileSystem = map<string, seq<byte>>

  /** The outcome of inflating raw deflate data: the bytes `inflate` writes into the output
      buffer, from its start. Its status is ignored by the library, so any outcome is a
      sequence of bytes. */
  type Inflate = seq<byte> -> seq<byte>

  // ---------------------------------------------------------------- load_the_npy_file

  const FailedFread := RuntimeError("load_the_npy_file: failed fread")

  /** `load_the_npy_file` on the bytes `s` left in the stream: the stream header, then exactly
      as many bytes as the header declares. */
  function NpyFileOf(s: seq<byte>): (r: Step<NpyArray>)
    ensures r.consumed <= |s|
    ensures r.result.Ok? ==>
              var h := HeaderOfStream(s);
              && h.result.Ok? && r.result.value == ArrayOf(h.result.value, r.result.value.bytes)
              && |r.result.value.bytes| == NumBytes(h.result.value)
              && r.consumed == h.consumed + NumBytes(h.result.value)
              && r.result.value.bytes == s[h.consumed..r.consumed]
  {
    var h := HeaderOfStream(s);
    match h.result
    case Err(e) => Step(Err(e), h.consumed)
    case Ok(header) =>
      var n := NumBytes(header);
      var body := Take(s[h.consumed..], n);
      if |body| != n then Step(Err(FailedFread), h.consumed + |body|)
      else Step(Ok(ArrayOf(header, body)), h.consumed + n)
  }

  /** `load_the_npy_file(FILE* fp)`. */
  method LoadTheNpyFile(f: File) returns (r: Result<NpyArray>)
    modifies f
    ensures r == NpyFileOf(Rest(f.data, old(f.pos))).result
    ensures f.pos == old(f.pos) + NpyFileOf(Rest(f.data, old(f.pos))).consumed
  {
    ghost var s := Rest(f.data, f.pos);
    var header :- ParseNpyHeaderFrom(f);
    assert Rest(f.data, f.pos) == s[HeaderOfStream(s).consumed..];
    var n := NumBytes(header);
    var bytes := f.Read(n);
    if |bytes| != n {
      return Err(FailedFread);
    }
    r := Ok(ArrayOf(header, bytes));
  }

  // ---------------------------------------------------------------- load_the_npz_array

  /** The output buffer of `uncompressed` zero bytes after `inflate` wrote `output` into it:
      never more than the buffer holds, and zeros where nothing was written. */
  function InflatedBuffer(output: seq<byte>, uncompressed: nat): (b: seq<byte>)
    ensures |b| == uncompressed
    ensures forall k :: 0 <= k < uncompressed ==> b[k] == if k < |output| then output[k] else 0
  {
    if uncompressed == 0 then []
    else if output == [] then [0] + InflatedBuffer([], uncompressed - 1)
    else [output[0]] + InflatedBuffer(output[1..], uncompressed - 1)
  }

  /** `load_the_npz_array` on the bytes `s` left in the stream: `compressed` bytes are read and
      inflated into a buffer of `uncompressed` bytes; the header is decoded from that buffer
      and the array is its last `num_bytes` bytes. An array larger than the buffer makes the
      copy start before the buffer. The short-read message is the one of `load_the_npy_file`. */
  function NpzArrayOf(s: seq<byte>, compressed: nat, uncompressed: nat, inflate: Inflate): (r: Step<NpyArray>)
    ensures r.consumed <= |s|
    ensures compressed > |s| ==> r == Step(Err(FailedFread), |s|)
    ensures compressed <= |s| ==> r.consumed == compressed
  {
    var input := Take(s, compressed);
    if |input| != compressed then Step(Err(FailedFread), |input|)
    else
      Step(ArrayInBuffer(InflatedBuffer(inflate(input), uncompressed)), compressed)
  }

  /** The array a decompressed entry holds: the header decoded from the buffer's start, and
      the buffer's last `num_bytes` bytes. */
  function ArrayInBuffer(buffer: seq<byte>): Result<NpyArray> {
    ArrayAfterHeader(HeaderOfBuffer(buffer), buffer)
  }

  function ArrayAfterHeader(header: Result<Header>, buffer: seq<byte>): Result<NpyArray> {
    match header
    case Err(e) => Err(e)
    case Ok(header) =>
      var n := NumBytes(header);
      if n > |buffer| then Err(UndefinedBehaviour("memcpy from before the start of the buffer"))
      else Ok(ArrayOf(header, buffer[|buffer| - n..]))
  }

  /** An inflated entry's array is the tail of the output buffer: its last `num_bytes` bytes,
      for the header decoded from the buffer's start; the stream moves past the compressed
      data and no further. */
  lemma NpzArrayIsBufferTail(s: seq<byte>, compressed: nat, uncompressed: nat, inflate: Inflate)
    requires NpzArrayOf(s, compressed, uncompressed, inflate).result.Ok?
    ensures compressed <= |s|
    ensures var buffer := InflatedBuffer(inflate(s[..compressed]), uncompressed);
            var h := HeaderOfBuffer(buffer);
            var a := NpzArrayOf(s, compressed, uncompressed, inflate).result.value;
            && NpzArrayOf(s, compressed, uncompressed, inflate).consumed == compressed
            && h.Ok? && NumBytes(h.value) <= uncompressed
            && a == ArrayOf(h.value, buffer[uncompressed - NumBytes(h.value)..])
            && |a.bytes| == NumBytes(h.value)
  {
  }

  /** `load_the_npz_array(FILE* fp, uint32_t compr_bytes, uint32_t uncompr_bytes)`. */
  method LoadTheNpzArray(f: File, compressed: nat, uncompressed: nat, inflate: Inflate) returns (r: Result<NpyArray>)
    modifies f
    ensures r == NpzArrayOf(Rest(f.data, old(f.pos)), compressed, uncompressed, inflate).result
    ensures f.pos == old(f.pos) + NpzArrayOf(Rest(f.data, old(f.pos)), compressed, uncompressed, inflate).consumed
  {
    var input := f.Read(compressed);
    if |input| != compressed {
      return Err(FailedFread);
    }
    var buffer := InflateInto(inflate(input), uncompressed);
    r := CopyArrayOut(buffer);
  }

  /** The header parse and the `memcpy` of `load_the_npz_array`, on the decompressed buffer. */
  method CopyArrayOut(buffer: seq<byte>) returns (r: Result<NpyArray>)
    ensures r == ArrayInBuffer(buffer)
  {
    var parsed := ParseNpyHeader(buffer);
    r := CopyArrayAfter(parsed, buffer);
  }

  method CopyArrayAfter(parsed: Result<Header>, buffer: seq<byte>) returns (r: Result<NpyArray>)
    ensures r == ArrayAfterHeader(parsed, buffer)
  {
    var header :- parsed;
    var n := NumBytes(header);
    if n > |buffer| {
      return Err(UndefinedBehaviour("memcpy from before the start of the buffer"));
    }
    var bytes := Memcpy(buffer, |buffer| - n, n);
    assert buffer[|buffer| - n..|buffer|] == buffer[|buffer| - n..];
    r := Ok(ArrayOf(header, bytes));
  }

  /** The zero-filled output buffer of `uncompressed` bytes into which `inflate` writes `output`. */
  method InflateInto(output: seq<byte>, uncompressed: nat) returns (r: seq<byte>)
    ensures r == InflatedBuffer(output, uncompressed)
  {
    var buffer := new byte[uncompressed](_ => 0);
    var k := 0;
    while k < uncompressed && k < |output|
      modifies buffer
      invariant k <= uncompressed && k <= |output|
      invariant forall i :: 0 <= i < uncompressed ==> buffer[i] == if i < k then output[i] else 0
    {
      buffer[k] := output[k];
      k := k + 1;
    }
    r := buffer[..];
  }

  /** `memcpy` of `n` bytes from `offset` in `src` into a new array's storage. */
  method Memcpy(src: seq<byte>, offset: nat, n: nat) returns (r: seq<byte>)
    requires offset + n <= |src|
    ensures r == src[offset..offset + n]
  {
    var dst := new byte[n](_ => 0);
    var i := 0;
    while i < n
      modifies dst
      invariant i <= n
      invariant dst[..i] == src[offset..offset + i]
    {
      dst[i] := src[offset + i];
      i := i + 1;
    }
    assert dst[..] == dst[..n];
    r := dst[..];
  }

  // ---------------------------------------------------------------- archive entries

  /** The array of an entry: loaded from the entry's data offset, as an NPY file when the
      entry is stored and inflated otherwise. */
  function EntryArray(data: seq<byte>, info: EntryInfo, inflate: Inflate): Result<NpyArray> {
    var s := Rest(data, info.dataOffset);
    if info.compressionMethod == 0 then NpyFileOf(s).result
    else NpzArrayOf(s, info.compressedByteCount, info.uncompressedByteCount, inflate).result
  }

  /** The array of an entry, read through the file after seeking to the entry's data. */
  method LoadEntry(f: File, info: EntryInfo, inflate: Inflate) returns (r: Result<NpyArray>)
    modifies f
    ensures r == EntryArray(f.data, info, inflate)
    ensures var s := Rest(f.data, info.dataOffset);
            f.pos == info.dataOffset + if info.compressionMethod == 0 then NpyFileOf(s).consumed
                                       else NpzArrayOf(s, info.compressedByteCount, info.uncompressedByteCount, inflate).consumed
  {
    f.Seek(info.dataOffset);
    if info.compressionMethod == 0 {
      r := LoadTheNpyFile(f);
    } else {
      r := LoadTheNpzArray(f, info.compressedByteCount, info.uncompressedByteCount, inflate);
    }
  }

  /** A measure that every seek of the archive loaders makes smaller: positions only move
      forward, and at or past the end no entry is parsed. */
  function Remaining(data: seq<byte>, pos: nat): nat {
    if pos <= |data| then |data| - pos + 1 else 0
  }

  /** Where `npz_load(fname)` seeks after an entry that started at `start`: 30 + the name's
      length + the sizes, which is not where the next entry starts. */
  function ReseekAsWritten(start: nat, info: EntryInfo): nat {
    start + 30 + |info.arrayName| + 4 + info.compressedByteCount + info.uncompressedByteCount
  }

  /** Where the next entry starts: right after this entry's data. */
  function NextEntry(info: EntryInfo): nat {
    info.dataOffset + info.compressedByteCount
  }

  // ---------------------------------------------------------------- npz_load(fname)

  function OpenFailedAll(fname: string): Error {
    RuntimeError("npz_load: Error! Unable to open file " + fname + "!")
  }

  /** The entries of an archive from `pos` on, added to `arrays`; a later entry with the same
      name replaces an earlier one. After each entry the reading goes on from
      `ReseekAsWritten` when `asWritten`, and from `NextEntry` otherwise. */
  function LoadAllFrom(data: seq<byte>, pos: nat, arrays: map<string, NpyArray>, inflate: Inflate, asWritten: bool)
    : Result<map<string, NpyArray>>
    decreases Remaining(data, pos)
  {
    var entry := ParseEntry(data, pos);
    match entry.result
    case Err(e) => Err(e)
    case Ok(None) => Ok(arrays)
    case Ok(Some(info)) =>
      match EntryArray(data, info, inflate)
      case Err(e) => Err(e)
      case Ok(loaded) =>
        var next := if asWritten then ReseekAsWritten(pos, info) else NextEntry(info);
        assert pos < next;
        LoadAllFrom(data, next, arrays[info.arrayName := loaded], inflate, asWritten)
  }

  /** `npz_load(fname)` as written. */
  function NpzLoadAllOf(fs: FileSystem, fname: string, inflate: Inflate): Result<map<string, NpyArray>> {
    if fname !in fs then Err(OpenFailedAll(fname)) else LoadAllFrom(fs[fname], 0, map[], inflate, true)
  }

  /** `npz_load(fname)` with the reseek to the end of each entry's data. */
  function NpzLoadAllFixed(fs: FileSystem, fname: string, inflate: Inflate): Result<map<string, NpyArray>> {
    if fname !in fs then Err(OpenFailedAll(fname)) else LoadAllFrom(fs[fname], 0, map[], inflate, false)
  }

  /** `cnpy::npz_load(std::string fname)`. */
  method NpzLoadAll(fs: FileSystem, fname: string, inflate: Inflate) returns (r: Result<map<string, NpyArray>>)
    ensures r == NpzLoadAllOf(fs, fname, inflate)
  {
    if fname !in fs {
      return Err(OpenFailedAll(fname));
    }
    var f := new File.Open(fs[fname]);
    var arrays: map<string, NpyArray> := map[];
    while true
      invariant f.data == fs[fname]
      invariant NpzLoadAllOf(fs, fname, inflate) == LoadAllFrom(f.data, f.pos, arrays, inflate, true)
      decreases Remaining(f.data, f.pos)
    {
      var entryStart := f.Tell();
      var info := ParseNpzEntry(f);
      if info.Err? {
        return Err(info.error);
      }
      if info.value.None? {
        break;
      }
      var entry := info.value.value;
      var loaded := LoadEntry(f, entry, inflate);
      if loaded.Err? {
        return Err(loaded.error);
      }
      arrays := arrays[entry.arrayName := loaded.value];
      f.Seek(ReseekAsWritten(entryStart, entry));
    }
    r := Ok(arrays);
  }

  // ---------------------------------------------------------------- npz_load(fname, varname)

  /** When `fopen` fails in `npz_load(fname, varname)` or `npy_load`, the exception they throw
      unwinds through the `AutoCloser` destructor, which calls `fclose` on the null handle. */
  const CloseNull := UndefinedBehaviour("fclose(NULL) in the AutoCloser destructor after fopen failed")

  function NotFound(varname: string): Error {
    RuntimeError("npz_load: variable not found: " + varname)
  }

  /** The first entry from `pos` on named `varname`, loaded; entries with other names are
      skipped by seeking past their data. */
  function LoadByNameFrom(data: seq<byte>, pos: nat, varname: string, inflate: Inflate): Result<NpyArray>
    decreases Remaining(data, pos)
  {
    var entry := ParseEntry(data, pos);
    match entry.result
    case Err(e) => Err(e)
    case Ok(None) => Err(NotFound(varname))
    case Ok(Some(info)) =>
      if info.arrayName == varname then EntryArray(data, info, inflate)
      else
        assert pos < NextEntry(info);
        LoadByNameFrom(data, NextEntry(info), varname, inflate)
  }

  /** `npz_load(fname, varname)` on the file system `fs`. */
  function NpzLoadOf(fs: FileSystem, fname: string, varname: string, inflate: Inflate): Result<NpyArray> {
    if fname !in fs then Err(CloseNull)
    else LoadByNameFrom(fs[fname], 0, varname, inflate)
  }

  /** `cnpy::npz_load(std::string fname, std::string varname)`. */
  method NpzLoad(fs: FileSystem, fname: string, varname: string, inflate: Inflate) returns (r: Result<NpyArray>)
    ensures r == NpzLoadOf(fs, fname, varname, inflate)
  {
    if fname !in fs {
      return Err(CloseNull);
    }
    var f := new File.Open(fs[fname]);
    while true
      invariant f.data == fs[fname]
      invariant NpzLoadOf(fs, fname, varname, inflate) == LoadByNameFrom(f.data, f.pos, varname, inflate)
      decreases Remaining(f.data, f.pos)
    {
      var info := ParseNpzEntry(f);
      if info.Err? {
        return Err(info.error);
      }
      if info.value.None? {
        break;
      }
      var entry := info.value.value;
      if entry.arrayName == varname {
        r := LoadEntry(f, entry, inflate);
        return;
      }
      f.Seek(NextEntry(entry));
    }
    r := Err(NotFound(varname));
  }

  // ---------------------------------------------------------------- npy_load

  /** `npy_load(fname)` on the file system `fs`. */
  function NpyLoadOf(fs: FileSystem, fname: string): Result<NpyArray> {
    if fname !in fs then Err(CloseNull)
    else NpyFileOf(fs[fname]).result
  }

  /** `cnpy::npy_load(std::string fname)`. */
  method NpyLoad(fs: FileSystem, fname: string) returns (r: Result<NpyArray>)
    ensures r == NpyLoadOf(fs, fname)
  {
    if fname !in fs {
      return Err(CloseNull);
    }
    var f := new File.Open(fs[fname]);
    assert Rest(f.data, f.pos) == fs[fname];
    r := LoadTheNpyFile(f);
  }
}
