/** Decoding the text header of an NPY array: memory order, shape, word size and dtype.
    Two variants, as in the library: one over a buffer already in memory (used for
    compressed archive entries), one reading from a stream (used for files and stored
    entries). */
module NpyHeader {
  import opened Bytes
  import opened Results
  import opened Text
  import opened Shape
  import opened Dtype
  import opened Stream

  /** What a header declares about its array. */
  datatype Header = Header(wordSize: nat, shape: seq<nat>, fortranOrder: bool, dtype: NpyType)

  const MissingDescr := RuntimeError("parse_npy_header: failed to find header keyword: 'descr'")
  const MissingFortranOrder :=
    RuntimeError("parse_npy_header: failed to find header keyword: 'fortran_order'")
  const MissingParenthesis := RuntimeError("parse_npy_header: failed to find header keyword: '(' or ')'")
  const FailedRead := RuntimeError("parse_npy_header: failed fread")

  /** The in-memory variant's memory order. It does not check that "fortran_order" is there:
      a missing keyword gives `npos + 16`, which wraps to 15 in `size_t`. The order is Fortran
      exactly when the four characters from there are "True"; `substr` throws when "there" is
      past the end. */
  function FortranOrderUnchecked(header: CppString): (r: Result<bool>)
    ensures var loc := if Find(header, "fortran_order").Some? then Find(header, "fortran_order").value + 16 else 15;
            && (r.Ok? <==> loc <= |header|)
            && (r.Ok? ==> (r.value <==> OccursAt(header, "True", loc)))
  {
    var loc := SizeT(FindPos(header, "fortran_order") + 16);
    var field :- Substr(header, loc, 4);
    Ok(field == "True")
  }

  /** The stream variant's memory order: "fortran_order" must be present, and the order is
      Fortran exactly when the four characters 16 past the keyword are "True". */
  function FortranOrderChecked(header: CppString): (r: Result<bool>)
    ensures Find(header, "fortran_order").None? ==> r == Err(MissingFortranOrder)
    ensures Find(header, "fortran_order").Some? ==>
              var loc := Find(header, "fortran_order").value + 16;
              && (r.Ok? <==> loc <= |header|)
              && (r.Ok? ==> (r.value <==> OccursAt(header, "True", loc)))
  {
    match Find(header, "fortran_order")
    case None => Err(MissingFortranOrder)
    case Some(i) =>
      var field :- Substr(header, SizeT(i + 16), 4);
      Ok(field == "True")
  }

  /** The in-memory variant's shape text: `substr(open + 1, close - open - 1)` in `size_t`
      arithmetic, with no check that either parenthesis is there; it never throws. Between the
      first '(' and the first ')' when both are there in that order; otherwise the wrapped
      arithmetic selects the other four cases below. */
  function ShapeTextUnchecked(header: CppString): (r: string)
    ensures var open, close := Find(header, "("), Find(header, ")");
            && (open.Some? && close.Some? && open.value < close.value ==>
                  r == header[open.value + 1..close.value])
            && (open.Some? && close.Some? && close.value < open.value ==> r == header[open.value + 1..])
            && (open.Some? && close.None? ==> r == header[open.value + 1..])
            && (open.None? && close.Some? ==> r == header[..close.value])
            && (open.None? && close.None? ==> r == header)
  {
    var open := FindPos(header, "(");
    var close := FindPos(header, ")");
    var pos := SizeT(open + 1);
    var count := SizeT(close as int - open - 1);
    header[pos..Min(pos + count, |header|)]
  }

  /** The stream variant's shape text: both parentheses must be there; the text strictly
      between the first '(' and the first ')', or all that follows the '(' when the ')' comes
      first (the count having wrapped). */
  function ShapeTextChecked(header: CppString): (r: Result<string>)
    ensures r.Ok? <==> Find(header, "(").Some? && Find(header, ")").Some?
    ensures r.Err? ==> r.error == MissingParenthesis
    ensures r.Ok? ==>
              var open, close := Find(header, "(").value, Find(header, ")").value;
              r.value == if open < close then header[open + 1..close] else header[open + 1..]
  {
    match (Find(header, "("), Find(header, ")"))
    case (Some(open), Some(close)) => Substr(header, SizeT(open + 1), SizeT(close as int - open - 1))
    case _ => Err(MissingParenthesis)
  }

  /** The text up to the first quote, or all of it: `substr(0, find("'"))`. */
  function UpToQuote(s: string): string {
    match Find(s, "'")
    case Some(q) => s[..q]
    case None => s
  }

  /** The word size and dtype of the "descr" entry. The descriptor's fields start 9 past
      the keyword, just after its opening quote. */
  function DescrOf(header: CppString): (r: Result<(nat, NpyType)>)
    ensures Find(header, "descr").None? ==> r == Err(MissingDescr)
    ensures Find(header, "descr").Some? ==> r == DescrFieldsAt(header, Find(header, "descr").value + 9)
  {
    match Find(header, "descr")
    case None => Err(MissingDescr)
    case Some(d) => DescrFieldsAt(header, d + 9)
  }

  /** The word size: the `atoi` of the text from `loc + 2` up to the next quote, as a `size_t`. */
  function WordSizeAt(header: string, loc: nat): nat
    requires loc + 2 <= |header|
  {
    SizeT(Atoi(UpToQuote(header[loc + 2..])))
  }

  /** The descriptor's fields from `loc`: the byte order is `header[loc]`, the kind letter
      `header[loc + 1]`, then the word size. Indexing past the terminating NUL is undefined
      behaviour, and `substr(loc + 2)` throws when that is past the end; the byte order must be
      '<' or '|' and the pair must be in the dtype table. */
  function DescrFieldsAt(header: CppString, loc: nat): (r: Result<(nat, NpyType)>)
    ensures r.Ok? <==> && loc + 2 <= |header|
                       && (header[loc] == '<' || header[loc] == '|')
                       && TypeFromCharAndSize(header[loc + 1], WordSizeAt(header, loc)).Ok?
    ensures r.Ok? ==> r.value == (WordSizeAt(header, loc), TypeFromCharAndSize(header[loc + 1], WordSizeAt(header, loc)).value)
  {
    if loc + 1 > |header| then Err(UndefinedBehaviour("character read past the end of the header"))
    else if loc + 2 > |header| then Err(OutOfRange("std::string::substr"))
    else
      var wordSize := WordSizeAt(header, loc);
      if !(header[loc] == '<' || header[loc] == '|') then Err(AssertionFailed("littleEndian"))
      else
        match TypeFromCharAndSize(header[loc + 1], wordSize)
        case Ok(dtype) => Ok((wordSize, dtype))
        case Err(e) => Err(e)
  }

  /** The fields of a header text, in the order the library extracts them (so the first
      failure is the one reported): memory order, shape, then descriptor. `checked` selects
      the stream variant's checks for "fortran_order" and the parentheses. */
  function DecodeHeaderText(header: CppString, checked: bool): Result<Header> {
    var fortranOrder :- if checked then FortranOrderChecked(header) else FortranOrderUnchecked(header);
    var shapeText :- if checked then ShapeTextChecked(header) else Ok(ShapeTextUnchecked(header));
    var shape :- ShapeOf(shapeText);
    var descr :- DescrOf(header);
    Ok(Header(descr.0, shape, fortranOrder, descr.1))
  }

  /** A header without "descr" is refused, never given a default dtype. */
  lemma MissingDescrRejected(header: CppString, checked: bool)
    requires Find(header, "descr").None?
    ensures DecodeHeaderText(header, checked).Err?
  {
  }

  /** The steps both variants take once they hold the header text. */
  method ParseHeaderText(header: CppString, checked: bool) returns (r: Result<Header>)
    ensures r == DecodeHeaderText(header, checked)
  {
    var fortranOrder :- if checked then FortranOrderChecked(header) else FortranOrderUnchecked(header);
    var shapeText :- if checked then ShapeTextChecked(header) else Ok(ShapeTextUnchecked(header));
    var shape :- ScanShape(shapeText);
    var descr :- DescrOf(header);
    r := Ok(Header(descr.0, shape, fortranOrder, descr.1));
  }

  // ---------------------------------------------------------------- in-memory variant

  /** The in-memory variant: the 16-bit header length is read little-endian at offset 8, and
      the header text is taken from offset 9 (one byte before where the NPY 1.0 layout puts it,
      so it starts with the length's high byte and loses its own last character).
      Reads past the end of the buffer are undefined behaviour in the library. */
  function HeaderOfBuffer(buffer: seq<byte>): Result<Header> {
    if |buffer| < 10 then Err(UndefinedBehaviour("header length read past the end of the buffer"))
    else
      var headerLen := FieldLE(buffer, 8, 2);
      if 9 + headerLen > |buffer| then Err(UndefinedBehaviour("header read past the end of the buffer"))
      else DecodeHeaderText(Chars(buffer[9..9 + headerLen]), false)
  }

  /** `parse_npy_header(unsigned char* buffer, ...)`. */
  method ParseNpyHeader(buffer: seq<byte>) returns (r: Result<Header>)
    ensures r == HeaderOfBuffer(buffer)
  {
    if |buffer| < 10 {
      return Err(UndefinedBehaviour("header length read past the end of the buffer"));
    }
    var headerLen := FieldLE(buffer, 8, 2);
    if 9 + headerLen > |buffer| {
      return Err(UndefinedBehaviour("header read past the end of the buffer"));
    }
    r := ParseHeaderText(Chars(buffer[9..9 + headerLen]), false);
  }

  /** The in-memory variant with the header text taken where version 1.0 puts it, at offset 10,
      right after the length field. */
  function HeaderOfBufferFixed(buffer: seq<byte>): Result<Header> {
    if |buffer| < 10 then Err(UndefinedBehaviour("header length read past the end of the buffer"))
    else
      var headerLen := FieldLE(buffer, 8, 2);
      if 10 + headerLen > |buffer| then Err(UndefinedBehaviour("header read past the end of the buffer"))
      else DecodeHeaderText(Chars(buffer[10..10 + headerLen]), false)
  }

  // ---------------------------------------------------------------- stream variant

  /** How many bytes of the 256-byte buffer `fgets` may fill. */
  const LINE_MAX: nat := 255

  /** A C string read into a `std::string`: everything before the first NUL. */
  function UpToNul(s: string): (t: string)
    ensures |t| <= |s| && t == s[..|t|]
    ensures '\0' !in t
    ensures |t| < |s| ==> s[|t|] == '\0'
  {
    if s == [] || s[0] == '\0' then [] else [s[0]] + UpToNul(s[1..])
  }

  /** The stream variant, from the bytes `s` left in the stream: the result and how many bytes
      it consumed. It reads 11 bytes (magic string, version, header length and the header's
      opening brace), then one line of at most 255 bytes with `fgets`; the length field is not
      used. The line must end in a newline (a debug-build assertion). */
  function HeaderOfStream(s: seq<byte>): (r: Step<Header>)
    ensures r.consumed <= |s|
  {
    if |s| < 11 then Step(Err(FailedRead), |s|)
    else
      var n := LineLength(s[11..], LINE_MAX);
      if n == 0 then Step(Err(UndefinedBehaviour("std::string built from the NULL fgets returned")), 11)
      else
        var header := UpToNul(Chars(s[11..11 + n]));
        if header == [] then Step(Err(UndefinedBehaviour("last character of an empty header")), 11 + n)
        else if header[|header| - 1] != '\n' then Step(Err(AssertionFailed("header ends with a newline")), 11 + n)
        else Step(DecodeHeaderText(header, true), 11 + n)
  }

  /** `parse_npy_header(FILE* fp, ...)`. */
  method ParseNpyHeaderFrom(f: File) returns (r: Result<Header>)
    modifies f
    ensures r == HeaderOfStream(Rest(f.data, old(f.pos))).result
    ensures f.pos == old(f.pos) + HeaderOfStream(Rest(f.data, old(f.pos))).consumed
  {
    ghost var s := Rest(f.data, f.pos);
    var prefix := f.Read(11);
    if |prefix| != 11 {
      return Err(FailedRead);
    }
    assert Rest(f.data, f.pos) == s[11..];
    ghost var n := LineLength(s[11..], LINE_MAX);
    var line := f.GetLine(LINE_MAX);
    assert line.Some? ==> line.value == s[11..11 + n];
    if line.None? {
      return Err(UndefinedBehaviour("std::string built from the NULL fgets returned"));
    }
    var header := UpToNul(Chars(line.value));
    if header == [] {
      return Err(UndefinedBehaviour("last character of an empty header"));
    }
    if header[|header| - 1] != '\n' {
      return Err(AssertionFailed("header ends with a newline"));
    }
    r := ParseHeaderText(header, true);
  }
}
