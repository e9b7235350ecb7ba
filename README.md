# cnpy loading engine in Dafny

This project models the loading side of cnpy, a C++ library that reads NumPy arrays from
`.npy` files and `.npz` archives. The model covers these parts:

- the dtype tables: `map_type`, `map_type_to_npy_types` and `get_type_from_type_char_and_word_size`;
- both decoders of the NPY 1.0 text header: the one over a buffer in memory and the one
  reading from a `FILE*`;
- the ZIP structures the archive loaders read: local file headers with the Zip64 extended
  information extra field (sections 4.3.7 and 4.5.3 of PKWARE's APPNOTE.TXT) and the end of
  central directory record (section 4.3.16);
- the loading of one array from a file or from a stored or deflated archive entry;
- the three entry points `npy_load`, `npz_load(fname)` and `npz_load(fname, varname)`.

The model follows the library's own structure:

- A `FILE*` is a class, `Stream.File`. It holds the file's bytes and a cursor that `Read`,
  `GetLine`, `Seek` and `SeekFromEnd` move.
- Every C++ function that reads from a stream becomes a method on that class.
- Each such method is proved equal to a function over the bytes left in the stream. The
  function returns the result and how many bytes were consumed.
- Loops stay loops: the shape scan, the Zip64 extra-field scan, the zero-filled inflate
  buffer, `memcpy` and the two archive loops. Each is proved against its function.
- Errors are values of `Results.Error`:
  - `RuntimeError` is an exception the library throws, with its message.
  - `OutOfRange` is `std::out_of_range`, thrown by `substr` or `stoi`.
  - `AssertionFailed` is a failing `assert` in a debug build.
  - `UndefinedBehaviour` marks a read or erase outside a buffer. The model stops there.
- `size_t` arithmetic is taken modulo 2^64, and `static_cast<uint32_t>` keeps the low 32 bits.
- The file system is a map from names to contents.
- zlib's `inflate` is a function parameter: the bytes it writes, from the start of the output
  buffer.

On top of the operations, the project proves round trips against an independent model of what
NumPy writes:

- an NPY header and file;
- a ZIP local header;
- the end of central directory record;
- whole archives of stored entries, each local header carrying any extra field (NumPy's writer
  puts a 20-byte Zip64 record there): the by-name loader returns the first member of that name,
  and the load-all loop, with the corrected reseek, returns every member's array, the last
  one of a name winning.

## Model

| member | source | states |
|---|---|---|
| Dtype.MapType | cnpy.cpp:20-45 | The kind letter is one of "fiubc?", and it is '?' exactly for a type the function does not list. |
| Dtype.MapTypesAgree | cnpy.cpp:47-84 | The dtype identifier of a C++ type has the kind letter `map_type` gives that type. It is NPY_NOTYPE exactly when `map_type` gives '?'. Both hold for the code as written and corrected. |
| Dtype.MapTypeToNpyTypes | cnpy.cpp:47-84 | The dtype identifier is NPY_NOTYPE exactly for a type the function does not list. NPY_LONG and NPY_ULONG occur only off Windows (lines 55-73). The 1- and 2-byte identifiers and NPY_ULONGLONG are never produced. |
| Dtype.MapTypeToNpyTypesFixed | cnpy.cpp:74 | Corrected, `unsigned long long` and only it maps to NPY_ULONGLONG. Every other type maps as written. |
| Dtype.UnsignedLongLongAsWritten | cnpy.cpp:63-74 | As written, `unsigned long long` maps to NPY_UINT, not the unsigned counterpart of `long long`'s NPY_LONGLONG. Its descriptor "u8" reads back as NPY_ULONGLONG in the header lookup. |
| Dtype.SignedUnsignedSymmetric | cnpy.cpp:52-75 | Corrected, each unsigned type maps to the unsigned counterpart of its signed type on both platforms. Both 8-byte types map to the dtype their descriptor reads back as. |
| Dtype.TypeFromCharAndSize | cnpy.cpp:103-145 | 'S', 'U' and 'V' are accepted at any width. Any other accepted descriptor is exactly the table descriptor of the dtype returned. A refusal carries the "unsupported dtype" message. |
| Dtype.LookupInvertsDescriptor | cnpy.cpp:106-135 | Each of the fifteen numeric dtypes is found from its own descriptor, so the table accepts exactly its descriptors. |
| Dtype.UnknownKindRejected | cnpy.cpp:142-143 | A kind letter outside "fiubcSUV" is refused at every width. |
| Dtype.UnsupportedMessage | cnpy.cpp:143 | Descriptor 'x4' is refused with the message naming "x4". |
| Dtype.WrittenDescriptorsAreAccepted | cnpy.cpp:20-45 | Every type `map_type` knows, paired with its `sizeof`, is a descriptor the header lookup accepts, and of the same kind. |
| Bytes.SizeT | cnpy.cpp:158 | Conversion to `size_t` is below 2^64, keeps values in range and wraps values one period out. |
| Bytes.Low32 | cnpy.cpp:378 | The truncation to 32 bits is below 2^32 and keeps a value that fits. |
| Text.Find | cnpy.cpp:158 | `find` returns the first index at which the pattern occurs, and none only when it occurs nowhere. |
| Text.Substr | cnpy.cpp:159 | `substr` succeeds exactly when the position is within the string. It then gives at most `count` characters from that position. |
| Text.SkipSpaces | cnpy.cpp:188 | The result is a suffix of the input that does not start with white space. |
| Text.LeadingDigitCount | cnpy.cpp:188 | This is the length of the longest digit prefix. |
| Text.AtoiOfDecimal | cnpy.cpp:186-188 | `atoi` reads back a number's decimal text when no digit follows it. |
| Shape.DigitRuns | cnpy.cpp:170-172 | Every match is a non-empty run of digits. |
| Shape.RunsCoverDigits | cnpy.cpp:165-173 | Joined together, the matches are exactly the digits of the text, in order. |
| Shape.Dims | cnpy.cpp:171 | `stoi` of every run: the values in order, or `out_of_range` exactly when some run exceeds INT_MAX. |
| Shape.ScanShape | cnpy.cpp:165-173 | The search-and-push loop yields the dimensions of the text, one per digit run. |
| Shape.ReadRun | cnpy.cpp:170-171 | The run starting at a digit is maximal, and its value is that of its digits. |
| Shape.SkipNonDigit | cnpy.cpp:170 | A leading non-digit adds no dimension. |
| Shape.TakeRun | cnpy.cpp:170-172 | A leading run is the first dimension, or the `stoi` failure. |
| Shape.NoDigitsThenRest | cnpy.cpp:170-172 | Text without digits before the rest adds no match. |
| Shape.ShapeRoundTrip | cnpy.cpp:162-173 | The tuple body NumPy writes decodes to its dimensions. A single dimension's trailing comma adds none. |
| Shape.ShapeExamples | cnpy.cpp:169-173 | "3," gives [3], "3, 4" gives [3, 4] and "" gives []. |
| NpyHeader.FortranOrderUnchecked | cnpy.cpp:158-159 | Reading starts 16 past "fortran_order", or at 15 when it is missing. The read fails exactly when that position is past the end. Otherwise the order is Fortran exactly when "True" is there. |
| NpyHeader.FortranOrderChecked | cnpy.cpp:208-212 | A missing "fortran_order" throws its message. Otherwise the result is the same as the unchecked reading from 16 past the keyword. |
| NpyHeader.ShapeTextUnchecked | cnpy.cpp:162-169 | Gives the text between the first '(' and the first ')'. Each of the four other placements (one missing, both missing, or ')' first) gives what the wrapped `size_t` arithmetic selects. |
| NpyHeader.ShapeTextChecked | cnpy.cpp:215-224 | Succeeds exactly when both parentheses are present; otherwise it throws their message. The result is the text between them, or all after '(' when ')' comes first. |
| NpyHeader.DescrOf | cnpy.cpp:178-182 | A missing "descr" throws. Otherwise the descriptor fields are read 9 past the keyword. |
| NpyHeader.DescrFieldsAt | cnpy.cpp:182-194 | Succeeds exactly when the fields are in range, the byte order is '<' or '|', and the table knows the pair. The word size is the `atoi` of the text up to the quote. |
| NpyHeader.MissingDescrRejected | cnpy.cpp:178-180 | A header without "descr" is refused by both variants. |
| NpyHeader.ParseHeaderText | cnpy.cpp:157-194 | The shape loop and field extraction give the decoded header text. |
| NpyHeader.ParseNpyHeader | cnpy.cpp:148-195 | The in-memory variant decodes the text taken from offset 9, for the length read at offset 8. |
| NpyHeader.UpToNul | cnpy.cpp:202 | The C string is the prefix before the first NUL. |
| NpyHeader.ParseNpyHeaderFrom | cnpy.cpp:197-250 | Reads 11 bytes and one line of at most 255 bytes, then decodes that line. The cursor moves by exactly the bytes read. |
| NpyFormat.MemoryOrderOfEntries | cnpy.cpp:158-159 | Both variants read back the written `fortran_order` value. |
| NpyFormat.ShapeTextOfEntries | cnpy.cpp:162-169 | Both variants select exactly the written tuple body. |
| NpyFormat.DescrOfEntries | cnpy.cpp:178-194 | Both variants read back the written word size and dtype. |
| NpyFormat.DecodeHeaderEntries | cnpy.cpp:157-194 | The dictionary entries NumPy writes decode to the header they describe, whatever follows and after any leading text without 'd', 'f' or parentheses. |
| NpyFormat.StreamHeaderRoundTrip | cnpy.cpp:197-250 | The stream variant decodes an NPY 1.0 header NumPy wrote, whose line fits its 256-byte buffer, and stops right after it. |
| NpyFormat.BufferHeaderRoundTrip | cnpy.cpp:148-195 | The in-memory variant decodes an NPY 1.0 header NumPy wrote, with a header line below 10240 bytes. |
| NpyFormat.BufferHoldsText | cnpy.cpp:152-153 | For a header NumPy wrote, the in-memory text is the length's high byte, then the line without its newline. |
| NpyFormat.BufferMisreadsShape | cnpy.cpp:153 | When the high byte of a written header's length is '(', the in-memory variant puts the word size in front of the shape. |
| NpyFormat.BufferHeaderRoundTripFixed | cnpy.cpp:148-195 | With the text taken from offset 10, the in-memory variant decodes every header NumPy wrote. |
| Stream.Rest | cnpy.cpp:199 | The bytes left at a cursor, with none once the cursor is past the end. |
| Stream.Take | cnpy.cpp:199-200 | `fread` gives all the bytes asked for, or all that are left. |
| Stream.LineLength | cnpy.cpp:202 | `fgets` stops after the first newline, after `max` bytes, or at the end. It reads nothing only at the end. |
| Stream.File.Open | cnpy.cpp:401 | An opened file is at position 0. |
| Stream.File.Read | cnpy.cpp:199-200 | Returns what `fread` reads and moves the cursor past it. |
| Stream.File.GetLine | cnpy.cpp:202 | Returns the line `fgets` reads, or NULL when nothing is left, and moves past it. |
| Stream.File.Seek | cnpy.cpp:408 | `SEEK_SET` moves the cursor to the given position. |
| Stream.File.SeekFromEnd | cnpy.cpp:255 | `SEEK_END` succeeds exactly when the file is long enough. Otherwise the cursor is left alone. |
| Zip.Zip64Sizes | cnpy.cpp:366-390 | A size that is not the 0xFFFFFFFF sentinel is never changed. |
| Zip.Zip64ReadsInside | cnpy.cpp:376-384 | A rewritten size is the low 32 bits of an 8-byte field wholly inside the extra field. |
| Zip.ResolveZip64 | cnpy.cpp:367-390 | The record-scanning loop computes the Zip64-fixed sizes. |
| Zip.Zip64ScanFrom | cnpy.cpp:369-389 | The scan from any record never changes a non-sentinel size. |
| Zip.Zip64Record | cnpy.cpp:374-386 | Reading a Zip64 record never changes a non-sentinel size. |
| Zip.ParseEntry | cnpy.cpp:339-397 | Never reads past the file. A parsed entry's data offset is where the stream stopped, at least 30 bytes on. |
| Zip.EntryAfterHeader | cnpy.cpp:345-396 | A name cut short by the end of the file means "no more entries". A complete name under 4 bytes is undefined behaviour. With a name of at least 4 bytes, an extra field cut short means "no more entries". Otherwise the entry is read, consuming exactly the name and the extra field, and its data offset is the position after them. |
| Zip.EntryCutShort | cnpy.cpp:355-364 | A local header whose name, or whose extra field after a name of at least 4 bytes, runs past the end of the file gives "no more entries", not an error. |
| Zip.ParseNpzEntry | cnpy.cpp:339-397 | Returns the entry, or "no more entries", and leaves the file where the function leaves it. |
| Zip.ReadEntryAfterHeader | cnpy.cpp:355-396 | Reads the name and the extra field and applies the Zip64 fix. |
| Zip.LocalHeaderFields | cnpy.cpp:343-354 | The fields the loader reads are the ones a writer puts in a local header. |
| Zip.ParseEntryRoundTrip | cnpy.cpp:339-397 | A written local header, name and extra field read back as the name without ".npy", the method, the Zip64-fixed sizes and the data offset. |
| Zip.SkipsOtherRecord | cnpy.cpp:388 | A record with another id is skipped whole. |
| Zip.ScanShift | cnpy.cpp:369-389 | Bytes before the scan position do not change what the scan finds. |
| Zip.Zip64RecordResolves | cnpy.cpp:367-390 | Sentinel sizes followed by a Zip64 record resolve to the record's sizes truncated to 32 bits. Other sizes are kept. |
| Zip.FooterOf | cnpy.cpp:252-273 | Succeeds exactly when the file holds 22 bytes and the four assertions hold. The footer is the record count and the central directory's size and offset. |
| Zip.ParseZipFooter | cnpy.cpp:252-273 | Returns the footer of the file's last 22 bytes, with the cursor where `fseek` and `fread` leave it. |
| Zip.FooterRoundTrip | cnpy.cpp:252-273 | Whatever precedes it, a written end of central directory record is read back. |
| Loader.NpyFileOf | cnpy.cpp:275-287 | A loaded array holds the stream header's declarations and exactly `num_bytes` bytes taken right after the header. |
| Loader.LoadTheNpyFile | cnpy.cpp:275-287 | The stream method returns that array and moves past it. |
| Loader.InflatedBuffer | cnpy.cpp:292-312 | The buffer has the declared size, with `inflate`'s output where it wrote and zeros after it. |
| Loader.NpzArrayOf | cnpy.cpp:289-295 | Exactly the compressed bytes are consumed. A short read throws the `load_the_npy_file` message. |
| Loader.NpzArrayIsBufferTail | cnpy.cpp:315-326 | The array of an inflated entry is the last `num_bytes` bytes of the buffer, under the header decoded from the buffer's start. |
| Loader.LoadTheNpzArray | cnpy.cpp:289-327 | The stream method returns that array and moves past the compressed data. |
| Loader.InflateInto | cnpy.cpp:292-312 | The loop builds the zero-filled buffer that `inflate` writes into. |
| Loader.Memcpy | cnpy.cpp:323-324 | The copy is exactly the source range. |
| Loader.CopyArrayOut | cnpy.cpp:319-326 | The header parse and copy give the array held in the buffer. |
| Loader.LoadEntry | cnpy.cpp:408-413 | After the seek, an entry loads as a file when stored and is inflated otherwise. The cursor ends after the array read as a file, or after the compressed data. |
| Loader.NpzLoadAll | cnpy.cpp:400-419 | The loop computes `npz_load(fname)` as written, including its reseek. |
| Loader.NpzLoad | cnpy.cpp:422-444 | The loop computes `npz_load(fname, varname)`. A file that does not open is undefined behaviour: the destructor calls `fclose` on NULL (lines 423-428). |
| Loader.NpyLoad | cnpy.cpp:446-463 | Computes `npy_load`: the file's array, or undefined behaviour when the file does not open, through `fclose` of NULL in the destructor (lines 448-458). |
| Archive.NpyFileRoundTrip | cnpy.cpp:275-287 | An NPY file NumPy wrote loads as its array and stops right after the data, whatever follows. |
| Archive.NpyLoadRoundTrip | cnpy.cpp:446-463 | `npy_load` of such a file gives its array. |
| Archive.WrittenFileHoldsArray | cnpy.cpp:275-287 | What NumPy writes for an array loads back as that array, whatever follows. |
| Archive.StoredEntryAt | cnpy.cpp:339-397 | A stored entry, whatever its extra field holds, parses to its name, method 0, both sizes and the data offset after the name and extra field. The contents follow at that offset. |
| Archive.ScanEndsAt | cnpy.cpp:342-343 | At a short tail or a non-local signature, such as the central directory, the scan reports no more entries. |
| Archive.StoredArrayAt | cnpy.cpp:408-410 | A stored entry loads the array its contents hold. |
| Archive.LoadAllStep | cnpy.cpp:404-416 | One round adds the entry's array and goes on from the reseek position. |
| Archive.LoadStops | cnpy.cpp:404-443 | Where no entry starts, load-all returns what it has and by-name reports "not found". |
| Archive.FirstNamed | cnpy.cpp:432 | The index of the first member with that name, and none exactly when no member has it. |
| Archive.NamedArrayIsFirstNamed | cnpy.cpp:432-443 | The expected by-name result is the first such member's array, or "not found". |
| Archive.LoadByNameHasRounds | cnpy.cpp:429-443 | By-name loading takes the loop's rounds: return on a match, skip to the next entry otherwise, and "not found" at the end. |
| Archive.ByNameLoop | cnpy.cpp:429-443 | Any loop taking those rounds over a laid-out archive gives the named array. |
| Archive.LaidOutOfEntries | cnpy.cpp:339-397 | Stored entries written back to back parse one after another, each loading its member's array. |
| Archive.NpzLoadByNameOfArchive | cnpy.cpp:422-444 | On an archive of stored entries with any extra fields, `npz_load(fname, varname)` returns the first member of that name's array, or throws "variable not found". |
| Archive.ArraysOfKeys | cnpy.cpp:410-412 | Load-all's keys are the existing keys plus every member's name. |
| Archive.ArraysOfKeeps | cnpy.cpp:410-412 | A name no member has keeps its array. |
| Archive.ArraysOfLastWins | cnpy.cpp:410-412 | A member that no later member shares its name with is the array under that name. |
| Archive.LoadAllHasRounds | cnpy.cpp:404-416 | The corrected load-all takes the loop's rounds: add the array and go to the next entry, stopping where none starts. |
| Archive.LoadAllLoop | cnpy.cpp:404-416 | Any loop taking those rounds over a laid-out archive loads every member in order. |
| Archive.NpzLoadAllFixedOfArchive | cnpy.cpp:400-419 | On an archive of stored entries with any extra fields, with the reseek to the end of each entry's data, `npz_load(fname)` returns every member's array under its name, the last of a name winning. |
| Archive.ReseekOvershoots | cnpy.cpp:414 | As written, the reseek after a stored entry lands past that entry's end by its uncompressed size less its extra field's length, which the formula leaves out. |
| Archive.AsWrittenStopsAfterFirst | cnpy.cpp:414 | When the first member's data is at least as long as its extra field and the rest together, the as-written loader returns only the first array. |
| Archive.AsWrittenLosesSecondArray | cnpy.cpp:414 | For two arrays in such an archive, the as-written loader loses the second and the corrected one returns both. |

## Behaviour that follows the code

Where the code and the library's design description differ, the model follows the code:

- **Stream header length field.** The stream decoder does not use the header length field. It
  reads 11 bytes (including the dictionary's '{') and then one `fgets` line of at most 255
  bytes.
- **Unchecked in-memory header.** The in-memory decoder checks neither "fortran_order" nor the
  parentheses. A missing keyword gives the wrapped positions described under `ShapeTextUnchecked`
  and `FortranOrderUnchecked`.
- **Truncated Zip64 data.** A Zip64 record too short for a size leaves that size at the
  sentinel. A record header that does not fit ends the scan. Neither case is an error.
- **Short local header read.** A short read of a local header, its name or its extra field
  means "no more entries", not an error. The load-all loop then returns what it has.
- **Inflate status.** The status of `inflate` is ignored. A short inflate leaves zeros in the
  buffer.
- **Deflated array offset.** The array of a deflated entry is taken from
  `uncompressed - num_bytes`, not from the end of the header.
- **Open failure.** When `fopen` fails, `npy_load` and `npz_load(fname, varname)` throw, and
  the `AutoCloser` destructor then calls `fclose` on NULL. The model gives undefined behaviour.
  `npz_load(fname)` has no such destructor and throws its "Unable to open file" message.
- **Load-all reseek.** Load-all reseeks with the formula of cnpy.cpp:414, not to the end of the
  entry's data (see Findings).

## Left out

- **Handle leak.** `fclose` and file handles are not modelled, except for the `fclose` of NULL
  after a failed open. `npz_load(fname)` leaks its
  handle when a load throws; that resource effect is not modelled.
- **`fopen`.** Opening is a lookup in the file-system map. Permission and I/O errors are the
  same as a missing file.
- **zlib.** zlib is not part of this model. `inflate` is a parameter, and `inflateInit2` and
  `inflateEnd` have no effect on the result.
- **Host endianness.** A little-endian host is assumed: the `reinterpret_cast` and `memcpy`
  field reads are little-endian. `BigEndianTest` is not modelled.
- **Release builds.** `assert` is modelled as in a debug build, where it fails with
  `AssertionFailed`. Builds with `NDEBUG` are not modelled.
- **Integer overflow.** `atoi` of a value above INT_MAX is undefined behaviour. The model
  takes the unbounded value modulo 2^64, as the conversion to `size_t` would. Overflow of `num_bytes` is not modelled either.
- **Allocation failure.** A failed allocation of the buffers is not modelled.
- **Empty-buffer UB.** `&buffer_compr[0]` on an empty vector is undefined behaviour, but the
  model treats an empty entry like any other.
- **CRC.** The CRC-32 of an entry is not checked by the code, and not by the model.
- **Out-of-core code.** `operator+=`, the writers in cnpy.h and example1.cpp are outside the
  loading engine. cnpy.h is not part of this model.
- **Regex engine.** `std::regex_search` with "[0-9][0-9]*" is replaced by an explicit
  digit-run tokenizer that finds the same runs.
- NpyFormat.BufferHeaderRoundTrip: proved only for header lines below 10240 bytes. For lines of
  10240 to 10495 bytes the high length byte is '(' and the result differs (see Findings).
  Longer lines are not covered.
- NpyFormat.StreamHeaderRoundTrip: proved only for header lines of at most 256 bytes, the
  ones `fgets` takes whole.
- Archive.NpzLoadByNameOfArchive: covers archives of stored (method 0) entries only, each with
  any extra field. A deflated entry's round trip depends on the `inflate` parameter.
- Archive.NpzLoadAllFixedOfArchive: same restriction, stored entries only, with any extra field.

## Findings

| source | as written | input that shows it | evidently intended | confidence | as-written member | corrected member |
|---|---|---|---|---|---|---|
| cnpy.cpp:414 | After each entry, load-all seeks to entry start + 30 + name length + compressed size + uncompressed size, adding the uncompressed size and leaving out the extra field's length. | An archive of two stored arrays whose first array's data is at least as long as its own extra field plus the second entry plus the central directory and footer. The second array is never loaded. | Seek to the end of the entry's data, `data_offset + compressed`, as the by-name loader does at line 440. | not executed | Archive.AsWrittenLosesSecondArray | Archive.NpzLoadAllFixedOfArchive |
| cnpy.cpp:74 | `unsigned long long` maps to NPY_UINT. | `map_type_to_npy_types(typeid(unsigned long long))` gives NPY_UINT. The descriptor "u8" it is written with reads back as NPY_ULONGLONG, and `long long` maps to NPY_LONGLONG. | NPY_ULONGLONG, the unsigned counterpart of line 63's NPY_LONGLONG. The table is not width-exact elsewhere (`char` and `short` map to NPY_INT and their unsigned types to NPY_UINT, lines 53-54 and 65-66), so only the 8-byte pairing is claimed. | not executed; medium | Dtype.UnsignedLongLongAsWritten | Dtype.SignedUnsignedSymmetric |
| cnpy.cpp:153 | The in-memory decoder takes the header text from `buffer + 9`, which is the high byte of the length field. | A deflated entry whose header line is 10240 to 10495 bytes long, with the high length byte '(' (0x28). For example, '<f8' with shape (3, 4) decodes as shape (8, 3, 4). | Take the text from `buffer + 10`, where NPY 1.0 puts it. | not executed | NpyFormat.BufferMisreadsShape | NpyFormat.BufferHeaderRoundTripFixed |

Each corrected definition sits beside the as-written one:

- `Loader.NpzLoadAllFixed` is used by the archive lemmas.
- `Dtype.MapTypeToNpyTypesFixed` fixes the dtype mapping.
- `NpyHeader.HeaderOfBufferFixed` fixes the in-memory offset.

The operation methods (`Loader.NpzLoadAll`, `Loader.LoadTheNpzArray`) keep the code as written.
