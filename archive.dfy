/** NPY files and NPZ archives of stored entries, each local header with any extra field (NumPy's
    writer puts a 20-byte Zip64 record there), and what the loaders read back from them: the whole-file round trip, the by-name lookup, and the load of all
    entries, both with the library's reseek and with a reseek to the end of each entry. */
module Archive {
  import opened Bytes
  import opened Results
  import opened Dtype
  import opened Stream
  import opened NpyHeader
  import opened NpyFormat
  import opened Zip
  import opened Loader

  // ---------------------------------------------------------------- NPY files

  /** The array NumPy's header and `data` describe. */
  function WrittenArray(typeChar: char, wordSize: nat, fortranOrder: bool, shape: seq<nat>, data: seq<byte>)
    : NpyArray
    requires TypeFromCharAndSize(typeChar, wordSize).Ok?
  {
    NpyArray(shape, wordSize, fortranOrder, TypeFromCharAndSize(typeChar, wordSize).value, data)
  }

  /** `load_the_npy_file` reads back an NPY file NumPy wrote: the array's bytes are the ones
      after the header, and the stream stops right after them, whatever follows. */
  lemma NpyFileRoundTrip(byteOrder: char, typeChar: char, wordSize: nat, fortranOrder: bool, shape: seq<nat>,
                         pad: nat, data: seq<byte>, rest: seq<byte>)
    requires Readable(byteOrder, typeChar, wordSize, shape)
    requires |Dictionary(byteOrder, typeChar, wordSize, fortranOrder, shape, pad)| <= LINE_MAX + 1
    requires |data| == Product(shape) * wordSize
    ensures var encoded := EncodeHeader(byteOrder, typeChar, wordSize, fortranOrder, shape, pad);
            NpyFileOf(encoded + data + rest)
            == Step(Ok(WrittenArray(typeChar, wordSize, fortranOrder, shape, data)), |encoded| + |data|)
  {
    var encoded := EncodeHeader(byteOrder, typeChar, wordSize, fortranOrder, shape, pad);
    assert encoded + data + rest == encoded + (data + rest);
    StreamHeaderRoundTrip(byteOrder, typeChar, wordSize, fortranOrder, shape, pad, data + rest);
    var s := encoded + (data + rest);
    assert s[|encoded|..] == data + rest;
    assert Take(data + rest, |data|) == data;
  }

  /** `npy_load` of a file NumPy wrote gives the array it holds. */
  lemma NpyLoadRoundTrip(fs: FileSystem, fname: string, byteOrder: char, typeChar: char, wordSize: nat,
                         fortranOrder: bool, shape: seq<nat>, pad: nat, data: seq<byte>)
    requires Readable(byteOrder, typeChar, wordSize, shape)
    requires |Dictionary(byteOrder, typeChar, wordSize, fortranOrder, shape, pad)| <= LINE_MAX + 1
    requires |data| == Product(shape) * wordSize
    requires fname in fs && fs[fname] == EncodeHeader(byteOrder, typeChar, wordSize, fortranOrder, shape, pad) + data
    ensures NpyLoadOf(fs, fname) == Ok(WrittenArray(typeChar, wordSize, fortranOrder, shape, data))
  {
    NpyFileRoundTrip(byteOrder, typeChar, wordSize, fortranOrder, shape, pad, data, []);
    assert fs[fname] + [] == fs[fname];
  }

  // ---------------------------------------------------------------- stored entries

  /** A member of an archive: its file name (the array's name and ".npy"), the extra field of
      its local header, its contents, and the array those contents hold. Python's `zipfile`,
      which NumPy's `savez` uses with `force_zip64`, writes there a Zip64 record of 20 bytes
      while the header's own 32-bit sizes hold the real ones. */
  datatype Member = Member(fileName: seq<byte>, extra: seq<byte>, payload: seq<byte>, npyArray: NpyArray)

  /** The extra field Python's `zipfile` writes with `force_zip64` for contents of `n` bytes:
      a Zip64 record holding the uncompressed then the compressed size. */
  function Zip64Extra(n: nat): (r: seq<byte>)
    requires n < TWO_64
    ensures |r| == 20
  {
    ExtraRecord(ZIP64_ID, LE64(n) + LE64(n))
  }

  /** A member the loaders can address: a name of at least the 4-byte suffix and an extra field
      that fit their 16-bit length fields, and contents below the Zip64 sentinel. */
  predicate Storable(m: Member) {
    4 <= |m.fileName| < TWO_16 && |m.extra| < TWO_16 && |m.payload| < SENTINEL
  }

  predicate AllStorable(members: seq<Member>) {
    forall k :: 0 <= k < |members| ==> Storable(members[k])
  }

  /** The name the loaders give a member's array: its file name without the suffix. */
  function ArrayName(m: Member): string
    requires 4 <= |m.fileName|
  {
    Chars(m.fileName[..|m.fileName| - 4])
  }

  /** A stored (method 0) entry: local header, file name, extra field, contents. The CRC is not
      read by the loaders and is written as 0. */
  function StoredEntry(m: Member): (r: seq<byte>)
    requires Storable(m)
    ensures |r| == 30 + |m.fileName| + |m.extra| + |m.payload|
  {
    EntryFront(m) + m.payload
  }

  /** Local header, file name and extra field: what comes before a stored entry's contents. */
  function EntryFront(m: Member): (r: seq<byte>)
    requires Storable(m)
    ensures |r| == 30 + |m.fileName| + |m.extra|
  {
    LocalHeader(0, 0, |m.payload|, |m.payload|, |m.fileName|, |m.extra|) + m.fileName + m.extra
  }

  /** The entries of an archive, one after another. */
  function Entries(members: seq<Member>): seq<byte>
    requires AllStorable(members)
  {
    if members == [] then [] else StoredEntry(members[0]) + Entries(members[1..])
  }

  /** What the loaders find for a stored entry at `start`: its array name, method 0, both
      sizes the contents' length, and its data right after the name and extra field. */
  function StoredInfo(m: Member, start: nat): EntryInfo
    requires Storable(m)
  {
    EntryInfo(ArrayName(m), 0, |m.payload|, |m.payload|, start + 30 + |m.fileName| + |m.extra|)
  }

  /** What is left after the first `|a|` of what is left. */
  lemma RestSplit(data: seq<byte>, pos: nat, a: seq<byte>, b: seq<byte>)
    requires Rest(data, pos) == a + b
    ensures Rest(data, pos + |a|) == b
  {
    if a != [] {
      assert data[pos + |a|..] == data[pos..][|a|..];
    }
  }

  /** A stored entry where the stream is: parsed back into its name, method, sizes and data
      offset, with its contents at that offset and the rest after them. */
  lemma StoredEntryAt(data: seq<byte>, pos: nat, m: Member, rest: seq<byte>)
    requires Storable(m) && Rest(data, pos) == StoredEntry(m) + rest
    ensures ParseEntry(data, pos) == Step(Ok(Some(StoredInfo(m, pos))), 30 + |m.fileName| + |m.extra|)
    ensures Rest(data, pos + 30 + |m.fileName| + |m.extra|) == m.payload + rest
    ensures Rest(data, pos + |StoredEntry(m)|) == rest
  {
    StoredEntryParsedAt(data, pos, m, rest);
    Associative(EntryFront(m), m.payload, rest);
    RestSplit(data, pos, EntryFront(m), m.payload + rest);
    RestSplit(data, pos, StoredEntry(m), rest);
  }

  lemma StoredEntryParsedAt(data: seq<byte>, pos: nat, m: Member, rest: seq<byte>)
    requires Storable(m) && Rest(data, pos) == StoredEntry(m) + rest
    ensures ParseEntry(data, pos) == Step(Ok(Some(StoredInfo(m, pos))), 30 + |m.fileName| + |m.extra|)
  {
    var n := |m.payload|;
    assert Rest(data, pos) == LocalHeader(0, 0, n, n, |m.fileName|, |m.extra|) + m.fileName + m.extra + (m.payload + rest);
    assert Zip64Sizes(m.extra, n, n) == (n, n);
    ParseEntryRoundTrip(data, pos, 0, 0, n, n, m.fileName, m.extra, m.payload + rest, StoredInfo(m, pos));
  }

  /** Bytes at which the scan for entries stops: too short for a local header, or without
      its signature bytes. The central directory, whose signature is 0x02014b50, is such. */
  predicate EndsScan(tail: seq<byte>) {
    |tail| < 30 || tail[2] != 0x03 || tail[3] != 0x04
  }

  lemma ScanEndsAt(data: seq<byte>, pos: nat)
    requires EndsScan(Rest(data, pos))
    ensures ParseEntry(data, pos).result == Ok(None)
  {
  }

  /** What `load_the_npy_file` reads from `payload` when `rest` follows it. */
  function FileFollowedBy(payload: seq<byte>, rest: seq<byte>): Result<NpyArray> {
    NpyFileOf(payload + rest).result
  }

  /** A member whose contents are a whole NPY file holding its array: `load_the_npy_file`
      reads that array from them, whatever follows. */
  ghost predicate HoldsArray(m: Member) {
    forall rest :: FileFollowedBy(m.payload, rest) == Ok(m.npyArray)
  }

  ghost predicate AllHoldArrays(members: seq<Member>) {
    forall k :: 0 <= k < |members| ==> HoldsArray(members[k])
  }

  /** What NumPy writes for an array is a whole NPY file holding it. */
  lemma WrittenFileHoldsArray(fileName: seq<byte>, extra: seq<byte>, byteOrder: char, typeChar: char, wordSize: nat,
                              fortranOrder: bool, shape: seq<nat>, pad: nat, data: seq<byte>)
    requires Readable(byteOrder, typeChar, wordSize, shape)
    requires |Dictionary(byteOrder, typeChar, wordSize, fortranOrder, shape, pad)| <= LINE_MAX + 1
    requires |data| == Product(shape) * wordSize
    ensures HoldsArray(Member(fileName, extra, EncodeHeader(byteOrder, typeChar, wordSize, fortranOrder, shape, pad) + data,
                              WrittenArray(typeChar, wordSize, fortranOrder, shape, data)))
  {
    var payload := EncodeHeader(byteOrder, typeChar, wordSize, fortranOrder, shape, pad) + data;
    forall rest
      ensures FileFollowedBy(payload, rest) == Ok(WrittenArray(typeChar, wordSize, fortranOrder, shape, data))
    {
      NpyFileRoundTrip(byteOrder, typeChar, wordSize, fortranOrder, shape, pad, data, rest);
    }
  }

  /** The array of a stored entry is the array its contents hold. */
  lemma StoredArrayAt(data: seq<byte>, pos: nat, m: Member, rest: seq<byte>, inflate: Inflate)
    requires Storable(m) && HoldsArray(m)
    requires Rest(data, pos + 30 + |m.fileName| + |m.extra|) == m.payload + rest
    ensures EntryArray(data, StoredInfo(m, pos), inflate) == Ok(m.npyArray)
  {
    assert FileFollowedBy(m.payload, rest) == Ok(m.npyArray);
  }

  /** One round of the load-all loop at an entry whose array loads. */
  lemma LoadAllStep(data: seq<byte>, pos: nat, info: EntryInfo, consumed: nat, loaded: NpyArray,
                    arrays: map<string, NpyArray>, inflate: Inflate, asWritten: bool)
    requires ParseEntry(data, pos) == Step(Ok(Some(info)), consumed)
    requires EntryArray(data, info, inflate) == Ok(loaded)
    ensures var next := if asWritten then ReseekAsWritten(pos, info) else NextEntry(info);
            LoadAllFrom(data, pos, arrays, inflate, asWritten)
            == LoadAllFrom(data, next, arrays[info.arrayName := loaded], inflate, asWritten)
  {
  }

  /** Where no entry starts, both loops stop. */
  lemma LoadStops(data: seq<byte>, pos: nat, arrays: map<string, NpyArray>, varname: string, inflate: Inflate,
                  asWritten: bool)
    requires ParseEntry(data, pos).result == Ok(None)
    ensures LoadAllFrom(data, pos, arrays, inflate, asWritten) == Ok(arrays)
    ensures LoadByNameFrom(data, pos, varname, inflate) == Err(NotFound(varname))
  {
  }

  // ---------------------------------------------------------------- npz_load(fname, varname)

  /** The index of the first member whose array is named `varname`. */
  function FirstNamed(members: seq<Member>, varname: string): (r: Option<nat>)
    requires AllStorable(members)
    ensures r.Some? ==> r.value < |members| && ArrayName(members[r.value]) == varname
    ensures r.Some? ==> forall k :: 0 <= k < r.value ==> ArrayName(members[k]) != varname
    ensures r.None? ==> forall k :: 0 <= k < |members| ==> ArrayName(members[k]) != varname
  {
    if members == [] then None
    else if ArrayName(members[0]) == varname then Some(0)
    else
      match FirstNamed(members[1..], varname)
      case None => None
      case Some(i) => Some(i + 1)
  }

  /** The entries of `members` then `tail`: the first entry and what follows it. */
  lemma EntriesCons(members: seq<Member>, tail: seq<byte>)
    requires AllStorable(members) && members != []
    ensures Entries(members) + tail == StoredEntry(members[0]) + (Entries(members[1..]) + tail)
  {
    Associative(StoredEntry(members[0]), Entries(members[1..]), tail);
  }

  lemma Associative(a: seq<byte>, b: seq<byte>, c: seq<byte>)
    ensures (a + b) + c == a + (b + c)
  {
  }

  /** What the loaders see of an archive: the entry that starts at each position (none where
      no entry starts) and the array each entry loads. */
  datatype View = View(entryAt: nat -> Result<Option<EntryInfo>>, arrayOf: EntryInfo -> Result<NpyArray>)

  /** The view of the bytes `data` through `parse_npz_entry` and the loading of an entry. */
  function ViewOf(data: seq<byte>, inflate: Inflate): View {
    View((pos: nat) => ParseEntry(data, pos).result, (info: EntryInfo) => EntryArray(data, info, inflate))
  }

  /** The archive from `pos` on, as a view shows it: each member's entry with its name, sizes
      and data offset, its array loading, the next entry right after its data, and no entry
      after the last. */
  ghost predicate LaidOut(view: View, pos: nat, members: seq<Member>)
    requires AllStorable(members)
    decreases |members|
  {
    if members == [] then view.entryAt(pos) == Ok(None)
    else
      var info := StoredInfo(members[0], pos);
      && view.entryAt(pos) == Ok(Some(info))
      && view.arrayOf(info) == Ok(members[0].npyArray)
      && LaidOut(view, NextEntry(info), members[1..])
  }

  /** An archive of stored entries, each holding its member's array, is laid out so. */
  lemma {:induction false} LaidOutOfEntries(data: seq<byte>, pos: nat, members: seq<Member>, tail: seq<byte>,
                                            inflate: Inflate)
    requires AllStorable(members) && AllHoldArrays(members) && EndsScan(tail)
    requires Rest(data, pos) == Entries(members) + tail
    ensures LaidOut(ViewOf(data, inflate), pos, members)
    decreases |members|
  {
    if members == [] {
      assert Rest(data, pos) == tail;
      ScanEndsAt(data, pos);
    } else {
      EntriesCons(members, tail);
      StoredEntryLoads(data, pos, members[0], Entries(members[1..]) + tail, inflate);
      LaidOutOfEntries(data, NextEntry(StoredInfo(members[0], pos)), members[1..], tail, inflate);
    }
  }

  /** A stored entry where the stream is: parsed, loading its member's array, and followed
      by `after` right after its data. */
  lemma StoredEntryLoads(data: seq<byte>, pos: nat, m: Member, after: seq<byte>, inflate: Inflate)
    requires Storable(m) && HoldsArray(m)
    requires Rest(data, pos) == StoredEntry(m) + after
    ensures var info := StoredInfo(m, pos);
            && ParseEntry(data, pos) == Step(Ok(Some(info)), 30 + |m.fileName| + |m.extra|)
            && EntryArray(data, info, inflate) == Ok(m.npyArray)
            && Rest(data, NextEntry(info)) == after
  {
    StoredEntryAt(data, pos, m, after);
    StoredArrayAt(data, pos, m, after, inflate);
  }

  /** What loading `varname` from the members gives: the array of the first member of that
      name, or the variable reported as not found. */
  function NamedArray(members: seq<Member>, varname: string): Result<NpyArray>
    requires AllStorable(members)
  {
    if members == [] then Err(NotFound(varname))
    else if ArrayName(members[0]) == varname then Ok(members[0].npyArray)
    else NamedArray(members[1..], varname)
  }

  /** The array loaded by name is the one of the first member with that name. */
  lemma {:induction false} NamedArrayIsFirstNamed(members: seq<Member>, varname: string)
    requires AllStorable(members)
    ensures NamedArray(members, varname)
            == match FirstNamed(members, varname)
               case None => Err(NotFound(varname))
               case Some(i) => Ok(members[i].npyArray)
  {
    if members != [] && ArrayName(members[0]) != varname {
      NamedArrayIsFirstNamed(members[1..], varname);
      match FirstNamed(members[1..], varname)
      case None =>
      case Some(i) =>
        assert members[1..][i] == members[i + 1];
    }
  }

  /** A loop over an archive's view that takes the rounds of `npz_load(fname, varname)`: an
      entry named `varname` gives its array, an entry with another name passes on to the next
      entry, and where no entry starts the variable is not found. */
  ghost predicate ByNameRounds(view: View, load: nat -> Result<NpyArray>, varname: string) {
    forall pos: nat {:trigger view.entryAt(pos)} ::
      match view.entryAt(pos)
      case Ok(None) => load(pos) == Err(NotFound(varname))
      case Ok(Some(info)) =>
        load(pos) == if info.arrayName == varname then view.arrayOf(info) else load(NextEntry(info))
      case Err(e) => load(pos) == Err(e)
  }

  /** `npz_load(fname, varname)` takes those rounds. */
  lemma LoadByNameHasRounds(data: seq<byte>, varname: string, inflate: Inflate)
    ensures ByNameRounds(ViewOf(data, inflate), (pos: nat) => LoadByNameFrom(data, pos, varname, inflate), varname)
  {
  }

  /** A loop that takes those rounds over an archive laid out with `members` gives their
      named array. */
  lemma {:induction false} ByNameLoop(view: View, load: nat -> Result<NpyArray>, pos: nat, members: seq<Member>,
                                      varname: string)
    requires AllStorable(members) && LaidOut(view, pos, members) && ByNameRounds(view, load, varname)
    ensures load(pos) == NamedArray(members, varname)
    decreases |members|
  {
    if members != [] && ArrayName(members[0]) != varname {
      ByNameLoop(view, load, NextEntry(StoredInfo(members[0], pos)), members[1..], varname);
    }
  }

  /** `npz_load(fname, varname)` on an archive of stored entries written by NumPy. */
  lemma NpzLoadByNameOfArchive(fs: FileSystem, fname: string, members: seq<Member>, tail: seq<byte>,
                               varname: string, inflate: Inflate)
    requires AllStorable(members) && AllHoldArrays(members) && EndsScan(tail)
    requires fname in fs && fs[fname] == Entries(members) + tail
    ensures NpzLoadOf(fs, fname, varname, inflate)
            == match FirstNamed(members, varname)
               case None => Err(NotFound(varname))
               case Some(i) => Ok(members[i].npyArray)
  {
    assert Rest(fs[fname], 0) == fs[fname];
    LaidOutOfEntries(fs[fname], 0, members, tail, inflate);
    LoadByNameHasRounds(fs[fname], varname, inflate);
    ByNameLoop(ViewOf(fs[fname], inflate), (pos: nat) => LoadByNameFrom(fs[fname], pos, varname, inflate), 0,
               members, varname);
    NamedArrayIsFirstNamed(members, varname);
  }

  // ---------------------------------------------------------------- npz_load(fname)

  /** The arrays of the members added to `arrays` in order: a later member replaces an
      earlier one of the same name. */
  function ArraysOf(members: seq<Member>, arrays: map<string, NpyArray>): map<string, NpyArray>
    requires AllStorable(members)
  {
    if members == [] then arrays
    else ArraysOf(members[1..], arrays[ArrayName(members[0]) := members[0].npyArray])
  }

  /** The names of the members' arrays. */
  function Names(members: seq<Member>): set<string>
    requires AllStorable(members)
  {
    set k | 0 <= k < |members| :: ArrayName(members[k])
  }

  lemma NamesCons(members: seq<Member>)
    requires AllStorable(members) && members != []
    ensures Names(members) == {ArrayName(members[0])} + Names(members[1..])
  {
    forall name | name in Names(members)
      ensures name in {ArrayName(members[0])} + Names(members[1..])
    {
      var k :| 0 <= k < |members| && ArrayName(members[k]) == name;
      if k > 0 {
        assert members[1..][k - 1] == members[k];
      }
    }
    forall name | name in Names(members[1..])
      ensures name in Names(members)
    {
      var k :| 0 <= k < |members| - 1 && ArrayName(members[1..][k]) == name;
      assert members[1..][k] == members[k + 1];
    }
  }

  /** The keys after loading are the ones already there and every member's name. */
  lemma {:induction false} ArraysOfKeys(members: seq<Member>, arrays: map<string, NpyArray>)
    requires AllStorable(members)
    ensures ArraysOf(members, arrays).Keys == arrays.Keys + Names(members)
    decreases |members|
  {
    if members != [] {
      NamesCons(members);
      ArraysOfKeys(members[1..], arrays[ArrayName(members[0]) := members[0].npyArray]);
    }
  }

  /** A name no member has keeps the array it had. */
  lemma {:induction false} ArraysOfKeeps(members: seq<Member>, arrays: map<string, NpyArray>, name: string)
    requires AllStorable(members) && name in arrays
    requires forall k :: 0 <= k < |members| ==> ArrayName(members[k]) != name
    ensures name in ArraysOf(members, arrays) && ArraysOf(members, arrays)[name] == arrays[name]
    decreases |members|
  {
    if members != [] {
      assert forall k :: 0 <= k < |members| - 1 ==> members[1..][k] == members[k + 1];
      ArraysOfKeeps(members[1..], arrays[ArrayName(members[0]) := members[0].npyArray], name);
    }
  }

  /** A member that no later member shares its name with: its array is the one under that
      name, whatever came before. */
  lemma {:induction false} ArraysOfLastWins(members: seq<Member>, arrays: map<string, NpyArray>, k: nat)
    requires AllStorable(members) && k < |members|
    requires forall j :: k < j < |members| ==> ArrayName(members[j]) != ArrayName(members[k])
    ensures ArrayName(members[k]) in ArraysOf(members, arrays)
    ensures ArraysOf(members, arrays)[ArrayName(members[k])] == members[k].npyArray
    decreases |members|
  {
    var next := arrays[ArrayName(members[0]) := members[0].npyArray];
    assert forall j :: 0 <= j < |members| - 1 ==> members[1..][j] == members[j + 1];
    if k == 0 {
      ArraysOfKeeps(members[1..], next, ArrayName(members[0]));
    } else {
      ArraysOfLastWins(members[1..], next, k - 1);
    }
  }

  /** A loop over an archive's view that takes the rounds of `npz_load(fname)` with the reseek
      to the end of each entry's data: an entry whose array loads adds it and passes on to the
      next entry, and where no entry starts the arrays so far are the result. */
  ghost predicate LoadAllRounds(view: View, load: (nat, map<string, NpyArray>) -> Result<map<string, NpyArray>>) {
    forall pos: nat, arrays: map<string, NpyArray> {:trigger load(pos, arrays)} ::
      match view.entryAt(pos)
      case Ok(None) => load(pos, arrays) == Ok(arrays)
      case Ok(Some(info)) =>
        view.arrayOf(info).Ok? ==>
          load(pos, arrays) == load(NextEntry(info), arrays[info.arrayName := view.arrayOf(info).value])
      case Err(_) => true
  }

  /** `npz_load(fname)` with the corrected reseek takes those rounds. */
  lemma LoadAllHasRounds(data: seq<byte>, inflate: Inflate)
    ensures LoadAllRounds(ViewOf(data, inflate),
                          (pos: nat, arrays: map<string, NpyArray>) => LoadAllFrom(data, pos, arrays, inflate, false))
  {
  }

  /** A loop that takes those rounds over an archive laid out with `members` loads every
      member, in order. */
  lemma {:induction false} LoadAllLoop(view: View, load: (nat, map<string, NpyArray>) -> Result<map<string, NpyArray>>,
                                       pos: nat, members: seq<Member>, arrays: map<string, NpyArray>)
    requires AllStorable(members) && LaidOut(view, pos, members) && LoadAllRounds(view, load)
    ensures load(pos, arrays) == Ok(ArraysOf(members, arrays))
    decreases |members|
  {
    if members != [] {
      var m := members[0];
      LoadAllLoop(view, load, NextEntry(StoredInfo(m, pos)), members[1..], arrays[ArrayName(m) := m.npyArray]);
    }
  }

  /** `npz_load(fname)` with the corrected reseek, on an archive of stored entries written by
      NumPy: every member's array under its name, the last one winning. */
  lemma NpzLoadAllFixedOfArchive(fs: FileSystem, fname: string, members: seq<Member>, tail: seq<byte>,
                                 inflate: Inflate)
    requires AllStorable(members) && AllHoldArrays(members) && EndsScan(tail)
    requires fname in fs && fs[fname] == Entries(members) + tail
    ensures NpzLoadAllFixed(fs, fname, inflate) == Ok(ArraysOf(members, map[]))
  {
    assert Rest(fs[fname], 0) == fs[fname];
    LaidOutOfEntries(fs[fname], 0, members, tail, inflate);
    LoadAllHasRounds(fs[fname], inflate);
    LoadAllLoop(ViewOf(fs[fname], inflate),
                (pos: nat, arrays: map<string, NpyArray>) => LoadAllFrom(fs[fname], pos, arrays, inflate, false),
                0, members, map[]);
  }

  /** `npz_load(fname)` as written reseeks, after a stored entry, to where the entry ends plus
      its uncompressed size, minus the extra field it leaves out of the count. */
  lemma ReseekOvershoots(prefix: seq<byte>, m: Member)
    requires Storable(m)
    ensures |ArrayName(m)| + 4 == |m.fileName|
    ensures NextEntry(StoredInfo(m, |prefix|)) == |prefix| + |StoredEntry(m)|
    ensures ReseekAsWritten(|prefix|, StoredInfo(m, |prefix|)) + |m.extra|
            == NextEntry(StoredInfo(m, |prefix|)) + |m.payload|
  {
  }

  /** An archive of two stored arrays whose first member's contents are at least as long as its
      extra field and the rest of the archive together: `npz_load(fname)` as written loses the second array, which the corrected
      reseek loads. */
  lemma AsWrittenLosesSecondArray(fs: FileSystem, fname: string, first: Member, second: Member, tail: seq<byte>,
                                  inflate: Inflate)
    requires Storable(first) && Storable(second) && EndsScan(tail)
    requires HoldsArray(first) && HoldsArray(second)
    requires ArrayName(first) != ArrayName(second)
    requires |first.payload| >= |first.extra| + |StoredEntry(second)| + |tail|
    requires fname in fs && fs[fname] == StoredEntry(first) + StoredEntry(second) + tail
    ensures NpzLoadAllOf(fs, fname, inflate) == Ok(map[ArrayName(first) := first.npyArray])
    ensures NpzLoadAllFixed(fs, fname, inflate)
            == Ok(map[ArrayName(first) := first.npyArray, ArrayName(second) := second.npyArray])
  {
    AsWrittenStopsAfterFirst(fs, fname, first, second, tail, inflate);
    TwoEntries(first, second);
    NpzLoadAllFixedOfArchive(fs, fname, [first, second], tail, inflate);
    TwoArrays(first, second);
  }

  lemma TwoArrays(first: Member, second: Member)
    requires Storable(first) && Storable(second)
    ensures AllStorable([first, second])
    ensures ArraysOf([first, second], map[])
            == map[ArrayName(first) := first.npyArray, ArrayName(second) := second.npyArray]
  {
    var one := map[ArrayName(first) := first.npyArray];
    assert [first, second][1..] == [second];
    assert ArraysOf([first, second], map[]) == ArraysOf([second], one);
    assert [second][1..] == [];
    assert ArraysOf([second], one) == ArraysOf([], one[ArrayName(second) := second.npyArray]);
  }

  /** The as-written reseek after a first member whose contents are at least as long as its
      extra field and the rest of the archive lands at or past the archive's end. */
  lemma AsWrittenStopsAfterFirst(fs: FileSystem, fname: string, first: Member, second: Member, tail: seq<byte>,
                                 inflate: Inflate)
    requires Storable(first) && Storable(second) && HoldsArray(first)
    requires |first.payload| >= |first.extra| + |StoredEntry(second)| + |tail|
    requires fname in fs && fs[fname] == StoredEntry(first) + StoredEntry(second) + tail
    ensures NpzLoadAllOf(fs, fname, inflate) == Ok(map[ArrayName(first) := first.npyArray])
  {
    var data := fs[fname];
    var after := StoredEntry(second) + tail;
    Associative(StoredEntry(first), StoredEntry(second), tail);
    assert Rest(data, 0) == StoredEntry(first) + after;
    StoredEntryLoads(data, 0, first, after, inflate);
    var info := StoredInfo(first, 0);
    LoadAllStep(data, 0, info, 30 + |first.fileName| + |first.extra|, first.npyArray, map[], inflate, true);
    ReseekOvershoots([], first);
    var next := ReseekAsWritten(0, info);
    assert Rest(data, next) == [];
    ScanEndsAt(data, next);
    LoadStops(data, next, map[ArrayName(first) := first.npyArray], [], inflate, true);
  }

  lemma TwoEntries(first: Member, second: Member)
    requires Storable(first) && Storable(second)
    ensures AllStorable([first, second])
    ensures Entries([first, second]) == StoredEntry(first) + StoredEntry(second)
  {
    var members := [first, second];
    assert members[1..] == [second];
    assert [second][1..] == [];
    assert Entries([second]) == StoredEntry(second) + Entries([]);
    EmptyRight(StoredEntry(second));
    assert Entries(members) == StoredEntry(first) + Entries([second]);
  }

  lemma EmptyRight(a: seq<byte>)
    ensures a + [] == a
  {
  }
}
