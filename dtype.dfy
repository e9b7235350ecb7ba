/** The element types of NumPy arrays and how the library names them: from a C++ type
    (`map_type`, `map_type_to_npy_types`) and from the descriptor of a header
    (`get_type_from_type_char_and_word_size`). */
module Dtype {
  import opened Bytes
  import opened Results

  /** `NPY_TYPE`, the dtype identifiers the library uses. */
  datatype NpyType =
    | Bool
    | Byte | UByte | Short | UShort | Int | UInt | Long | ULong | LongLong | ULongLong
    | Float | Double | LongDouble
    | CFloat | CDouble | CLongDouble
    | Str      // NPY_STRING: fixed-width byte strings
    | Unicode  // NPY_UNICODE: fixed-width text
    | Void     // NPY_VOID: opaque records
    | NoType   // NPY_NOTYPE: the sentinel for a C++ type the library does not know

  /** The C++ types `map_type` and `map_type_to_npy_types` tell apart. The fixed-width
      aliases they also test (`int32_t`, `int64_t`, `uint32_t`, `uint64_t`) are typedefs of
      these, so they add no case of their own. */
  datatype CppType =
    | CppFloat | CppDouble | CppLongDouble
    | CppInt | CppChar | CppShort | CppLong | CppLongLong
    | CppUChar | CppUShort | CppULong | CppULongLong | CppUInt
    | CppBool
    | CppComplexFloat | CppComplexDouble | CppComplexLongDouble
    | CppOther

  /** `map_type`: the one-letter kind code a C++ type is written with, '?' when unknown. */
  function MapType(t: CppType): (c: char)
    ensures c == '?' <==> t == CppOther
    ensures c in "fiubc?"
  {
    match t
    case CppFloat | CppDouble | CppLongDouble => 'f'
    case CppInt | CppChar | CppShort | CppLong | CppLongLong => 'i'
    case CppUChar | CppUShort | CppULong | CppULongLong | CppUInt => 'u'
    case CppBool => 'b'
    case CppComplexFloat | CppComplexDouble | CppComplexLongDouble => 'c'
    case CppOther => '?'
  }

  /** `map_type_to_npy_types`: the dtype identifier of a C++ type, as written in the library.
      `long` and `unsigned long` depend on the platform: 32 bits on Windows, else 64. Only the
      unknown types give the sentinel; NPY_LONG and NPY_ULONG appear only off Windows; and the
      1- and 2-byte identifiers and NPY_ULONGLONG are never produced. */
  function MapTypeToNpyTypes(t: CppType, windows: bool): (r: NpyType)
    ensures r == NoType <==> t == CppOther
    ensures windows ==> r != Long && r != ULong
    ensures r !in {Byte, UByte, Short, UShort, ULongLong}
  {
    match t
    case CppFloat => Float
    case CppDouble => Double
    case CppLongDouble => LongDouble
    case CppInt | CppChar | CppShort => Int
    case CppLong => if windows then Int else Long
    case CppLongLong => LongLong
    case CppUChar | CppUShort => UInt
    case CppULong => if windows then UInt else ULong
    case CppULongLong => UInt
    case CppUInt => UInt
    case CppBool => Bool
    case CppComplexFloat => CFloat
    case CppComplexDouble => CDouble
    case CppComplexLongDouble => CLongDouble
    case CppOther => NoType
  }

  /** The kind letter of a dtype identifier, '?' for the sentinel. */
  function KindOf(t: NpyType): char {
    match t
    case Float | Double | LongDouble => 'f'
    case Byte | Short | Int | Long | LongLong => 'i'
    case UByte | UShort | UInt | ULong | ULongLong => 'u'
    case Bool => 'b'
    case CFloat | CDouble | CLongDouble => 'c'
    case Str => 'S'
    case Unicode => 'U'
    case Void => 'V'
    case NoType => '?'
  }

  /** `map_type_to_npy_types` with `unsigned long long` mapped to NPY_ULONGLONG, the unsigned
      counterpart of what `long long` maps to; every other type maps as written. */
  function MapTypeToNpyTypesFixed(t: CppType, windows: bool): (r: NpyType)
    ensures r == ULongLong <==> t == CppULongLong
    ensures t != CppULongLong ==> r == MapTypeToNpyTypes(t, windows)
  {
    match t
    case CppULongLong => ULongLong
    case _ => MapTypeToNpyTypes(t, windows)
  }

  /** The identifier a C++ type maps to is of the kind `map_type` writes for it, and it is
      the sentinel exactly for the unknown types; both as written and corrected. */
  lemma MapTypesAgree(t: CppType, windows: bool)
    ensures KindOf(MapTypeToNpyTypes(t, windows)) == MapType(t)
    ensures MapTypeToNpyTypes(t, windows) == NoType <==> MapType(t) == '?'
    ensures KindOf(MapTypeToNpyTypesFixed(t, windows)) == MapType(t)
    ensures MapTypeToNpyTypesFixed(t, windows) == NoType <==> MapType(t) == '?'
  {
  }

  /** The unsigned C++ type of the same width as a signed one. */
  function UnsignedCpp(t: CppType): Option<CppType> {
    match t
    case CppChar => Some(CppUChar)
    case CppShort => Some(CppUShort)
    case CppInt => Some(CppUInt)
    case CppLong => Some(CppULong)
    case CppLongLong => Some(CppULongLong)
    case _ => None
  }

  /** The unsigned dtype of the same width as a signed one; other dtypes are left as they are. */
  function UnsignedNpy(t: NpyType): NpyType {
    match t
    case Byte => UByte
    case Short => UShort
    case Int => UInt
    case Long => ULong
    case LongLong => ULongLong
    case _ => t
  }

  /** As written, `unsigned long long` maps to NPY_UINT while `long long` maps to
      NPY_LONGLONG: the unsigned type is not mapped to the counterpart of its signed one, nor
      to the dtype the header lookup gives for the descriptor it is written with ("u8"). */
  lemma UnsignedLongLongAsWritten(windows: bool)
    ensures MapTypeToNpyTypes(CppLongLong, windows) == LongLong
    ensures MapTypeToNpyTypes(CppULongLong, windows) == UInt
    ensures MapTypeToNpyTypes(CppULongLong, windows) != UnsignedNpy(MapTypeToNpyTypes(CppLongLong, windows))
    ensures TypeFromCharAndSize(MapType(CppLongLong), SizeOf(CppLongLong, windows)) == Ok(LongLong)
    ensures TypeFromCharAndSize(MapType(CppULongLong), SizeOf(CppULongLong, windows)) == Ok(ULongLong)
  {
  }

  /** Corrected, every unsigned C++ type maps to the unsigned counterpart of what its signed
      type maps to, on every platform, and both 8-byte integer types map to the dtype the
      header lookup gives for their descriptors. */
  lemma SignedUnsignedSymmetric(t: CppType, windows: bool)
    requires UnsignedCpp(t).Some?
    ensures MapTypeToNpyTypesFixed(UnsignedCpp(t).value, windows) == UnsignedNpy(MapTypeToNpyTypesFixed(t, windows))
    ensures t == CppLongLong ==>
              && TypeFromCharAndSize(MapType(t), SizeOf(t, windows)) == Ok(MapTypeToNpyTypesFixed(t, windows))
              && TypeFromCharAndSize(MapType(UnsignedCpp(t).value), SizeOf(UnsignedCpp(t).value, windows))
                 == Ok(MapTypeToNpyTypesFixed(UnsignedCpp(t).value, windows))
  {
  }

  /** The fixed-width descriptor ('<kind><bytes>') of each numeric dtype of the header table:
      the reference the lookup below is checked against. */
  function Descriptor(t: NpyType): Option<(char, nat)> {
    match t
    case Float => Some(('f', 4))
    case Double => Some(('f', 8))
    case LongDouble => Some(('f', 16))
    case Byte => Some(('i', 1))
    case Short => Some(('i', 2))
    case Int => Some(('i', 4))
    case LongLong => Some(('i', 8))
    case UByte => Some(('u', 1))
    case UShort => Some(('u', 2))
    case UInt => Some(('u', 4))
    case ULongLong => Some(('u', 8))
    case Bool => Some(('b', 1))
    case CFloat => Some(('c', 8))
    case CDouble => Some(('c', 16))
    case CLongDouble => Some(('c', 32))
    case _ => None
  }

  /** 'S', 'U' and 'V' name types whose width is the element's byte count, whatever it is. */
  predicate IsFlexibleKind(c: char) {
    c == 'S' || c == 'U' || c == 'V'
  }

  function FlexibleType(c: char): NpyType
    requires IsFlexibleKind(c)
  {
    if c == 'S' then Str else if c == 'U' then Unicode else Void
  }

  /** The message of the exception for a descriptor the table does not know. */
  function UnsupportedDtype(typeChar: char, wordSize: nat): Error {
    RuntimeError("parse_npy_header: unsupported dtype: " + [typeChar] + Decimal(wordSize))
  }

  /** `get_type_from_type_char_and_word_size`: the dtype a header descriptor names.
      Exactly the fifteen numeric descriptors of `Descriptor` and any width of 'S', 'U', 'V'
      are accepted; anything else throws a message naming the kind letter and the width. */
  function TypeFromCharAndSize(typeChar: char, wordSize: nat): (r: Result<NpyType>)
    ensures IsFlexibleKind(typeChar) ==> r == Ok(FlexibleType(typeChar))
    ensures !IsFlexibleKind(typeChar) && r.Ok? ==> Descriptor(r.value) == Some((typeChar, wordSize))
    ensures r.Err? ==> r.error == UnsupportedDtype(typeChar, wordSize)
  {
    if typeChar == 'f' && wordSize == 4 then Ok(Float)
    else if typeChar == 'f' && wordSize == 8 then Ok(Double)
    else if typeChar == 'f' && wordSize == 16 then Ok(LongDouble)
    else if typeChar == 'i' && wordSize == 1 then Ok(Byte)
    else if typeChar == 'i' && wordSize == 2 then Ok(Short)
    else if typeChar == 'i' && wordSize == 4 then Ok(Int)
    else if typeChar == 'i' && wordSize == 8 then Ok(LongLong)
    else if typeChar == 'u' && wordSize == 1 then Ok(UByte)
    else if typeChar == 'u' && wordSize == 2 then Ok(UShort)
    else if typeChar == 'u' && wordSize == 4 then Ok(UInt)
    else if typeChar == 'u' && wordSize == 8 then Ok(ULongLong)
    else if typeChar == 'b' && wordSize == 1 then Ok(Bool)
    else if typeChar == 'c' && wordSize == 8 then Ok(CFloat)
    else if typeChar == 'c' && wordSize == 16 then Ok(CDouble)
    else if typeChar == 'c' && wordSize == 32 then Ok(CLongDouble)
    else if typeChar == 'S' then Ok(Str)
    else if typeChar == 'U' then Ok(Unicode)
    else if typeChar == 'V' then Ok(Void)
    else Err(UnsupportedDtype(typeChar, wordSize))
  }

  /** The lookup inverts the descriptor table: every numeric dtype is found from its own
      descriptor. With the ensures of the lookup, a non-flexible descriptor is accepted
      if and only if it is in the table. */
  lemma LookupInvertsDescriptor(t: NpyType)
    requires Descriptor(t).Some?
    ensures TypeFromCharAndSize(Descriptor(t).value.0, Descriptor(t).value.1) == Ok(t)
  {
    match t
    case Float =>
    case Double =>
    case LongDouble =>
    case Byte =>
    case Short =>
    case Int =>
    case LongLong =>
    case UByte =>
    case UShort =>
    case UInt =>
    case ULongLong =>
    case Bool =>
    case CFloat =>
    case CDouble =>
    case CLongDouble =>
    case _ =>
  }

  /** A descriptor with an unknown kind letter is refused, whatever its width. */
  lemma UnknownKindRejected(typeChar: char, wordSize: nat)
    requires typeChar !in "fiubcSUV"
    ensures TypeFromCharAndSize(typeChar, wordSize).Err?
  {
  }

  /** The message for a header declaring 'x4' names "x4". */
  lemma UnsupportedMessage()
    ensures TypeFromCharAndSize('x', 4) == Err(RuntimeError("parse_npy_header: unsupported dtype: x4"))
  {
  }

  /** `sizeof` of each C++ type: LLP64 on Windows, LP64 elsewhere (x86-64 `long double`
      taking 16 bytes). This is the word size the writer pairs with `map_type`'s letter. */
  function SizeOf(t: CppType, windows: bool): nat {
    match t
    case CppFloat => 4
    case CppDouble => 8
    case CppLongDouble => if windows then 8 else 16
    case CppInt => 4
    case CppChar => 1
    case CppShort => 2
    case CppLong => if windows then 4 else 8
    case CppLongLong => 8
    case CppUChar => 1
    case CppUShort => 2
    case CppULong => if windows then 4 else 8
    case CppULongLong => 8
    case CppUInt => 4
    case CppBool => 1
    case CppComplexFloat => 8
    case CppComplexDouble => 16
    case CppComplexLongDouble => if windows then 16 else 32
    case CppOther => 0
  }

  /** Every C++ type `map_type` knows is written with a descriptor the header lookup accepts,
      and the dtype read back has the kind letter it was written with. */
  lemma WrittenDescriptorsAreAccepted(t: CppType, windows: bool)
    requires MapType(t) != '?'
    ensures TypeFromCharAndSize(MapType(t), SizeOf(t, windows)).Ok?
    ensures KindOf(TypeFromCharAndSize(MapType(t), SizeOf(t, windows)).value) == MapType(t)
  {
  }
}
