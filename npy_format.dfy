/** The NPY format (version 1.0) as NumPy writes it, and the proofs that both header decoders
    read back the header dictionary that was written; also what the in-memory decoder, which
    takes its text from offset 9, makes of a header whose length's high byte is '('. */
module NpyFormat {
  import opened Bytes
  import opened Results
  import opened Text
  import opened Shape
  import opened Dtype
  import opened Stream
  import opened NpyHeader

  // ---------------------------------------------------------------- finding keywords

  /** `pat` occurs in `s` at `i` exactly when it occurs in `p + s` at `|p| + i`. */
  lemma OccursShift(p: string, s: string, pat: string, i: nat)
    ensures OccursAt(p + s, pat, |p| + i) <==> OccursAt(s, pat, i)
  {
    if i + |pat| <= |s| {
      assert (p + s)[|p| + i..|p| + i + |pat|] == s[i..i + |pat|];
    }
  }

  /** When `pat` starts nowhere inside `p`, `find` on `p + s` is `find` on `s`, shifted. */
  lemma FindAfter(p: string, s: string, pat: string)
    requires forall j :: 0 <= j < |p| ==> !OccursAt(p + s, pat, j)
    ensures Find(p + s, pat) == if Find(s, pat).Some? then Some(|p| + Find(s, pat).value) else None
  {
    var r := Find(p + s, pat);
    if Find(s, pat).Some? {
      var i := Find(s, pat).value;
      OccursShift(p, s, pat, i);
      if r.Some? && r.value != |p| + i {
        if r.value >= |p| {
          OccursShift(p, s, pat, r.value - |p|);
        }
      }
    } else if r.Some? {
      OccursShift(p, s, pat, r.value - |p|);
    }
  }

  /** What is appended after the first occurrence does not move it. */
  lemma FindBefore(s: string, t: string, pat: string)
    requires Find(s, pat).Some?
    ensures Find(s + t, pat) == Find(s, pat)
  {
    var i := Find(s, pat).value;
    assert (s + t)[i..i + |pat|] == s[i..i + |pat|];
    assert OccursAt(s + t, pat, i);
    var r := Find(s + t, pat);
    if r.Some? && r.value < i {
      assert (s + t)[r.value..r.value + |pat|] == s[r.value..r.value + |pat|];
      assert OccursAt(s, pat, r.value);
    }
  }

  /** A text that starts with `pat` has it at index 0. */
  lemma FindAtStart(pat: string, s: string)
    ensures Find(pat + s, pat) == Some(0)
  {
    assert (pat + s)[0..|pat|] == pat;
  }

  /** A pattern starts nowhere in a text without its first character. */
  lemma NoStartWithout(p: string, s: string, pat: string)
    requires |pat| >= 1 && pat[0] !in p
    ensures forall j :: 0 <= j < |p| ==> !OccursAt(p + s, pat, j)
  {
  }

  /** A pattern starts nowhere in `p` when each of its first character's occurrences in `p`
      is followed, still inside `p`, by something other than its second character. */
  lemma NoStartBefore(p: string, s: string, pat: string)
    requires |pat| >= 2
    requires forall k :: 0 <= k < |p| && p[k] == pat[0] ==> k + 1 < |p| && p[k + 1] != pat[1]
    ensures forall j :: 0 <= j < |p| ==> !OccursAt(p + s, pat, j)
  {
    forall j | 0 <= j < |p|
      ensures !OccursAt(p + s, pat, j)
    {
      if j + |pat| <= |p + s| {
        var window := (p + s)[j..j + |pat|];
        assert window[0] == p[j];
        if p[j] == pat[0] {
          assert window[1] == p[j + 1];
        }
      }
    }
  }

  // ---------------------------------------------------------------- the header dictionary

  function Spaces(n: nat): (s: string)
    ensures |s| == n && forall k :: 0 <= k < n ==> s[k] == ' '
  {
    if n == 0 then "" else " " + Spaces(n - 1)
  }

  /** The "descr" entry: byte order, kind letter and width, e.g. "'descr': '<f8', ". */
  function DescrEntry(byteOrder: char, typeChar: char, wordSize: nat): string {
    "'descr': '" + [byteOrder, typeChar] + Decimal(wordSize) + "', "
  }

  /** The "fortran_order" entry, e.g. "'fortran_order': False, ". */
  function FortranEntry(fortranOrder: bool): string {
    "'fortran_order': " + (if fortranOrder then "True" else "False") + ", "
  }

  /** The "shape" entry and the closing brace, e.g. "'shape': (3, 4), }". */
  function ShapeEntry(shape: seq<nat>): string {
    "'shape': (" + TupleBody(shape) + "), }"
  }

  /** What the library accepts in a header NumPy wrote: a little-endian or byte-order-free
      descriptor the table knows, and a width and dimensions that `atoi` and `std::stoi` read
      without overflow. */
  predicate Readable(byteOrder: char, typeChar: char, wordSize: nat, shape: seq<nat>) {
    && (byteOrder == '<' || byteOrder == '|')
    && TypeFromCharAndSize(typeChar, wordSize).Ok?
    && wordSize <= INT_MAX
    && forall k :: 0 <= k < |shape| ==> shape[k] <= INT_MAX
  }

  lemma TupleBodyChars(shape: seq<nat>)
    ensures forall k :: 0 <= k < |TupleBody(shape)| ==>
              IsDigit(TupleBody(shape)[k]) || TupleBody(shape)[k] == ',' || TupleBody(shape)[k] == ' '
  {
    if |shape| > 1 {
      JoinedChars(shape);
    }
  }

  lemma {:induction false} JoinedChars(dims: seq<nat>)
    requires dims != []
    ensures forall k :: 0 <= k < |Joined(dims)| ==>
              IsDigit(Joined(dims)[k]) || Joined(dims)[k] == ',' || Joined(dims)[k] == ' '
  {
    if |dims| > 1 {
      JoinedChars(dims[1..]);
    }
  }

  /** The only 'f' the "descr" entry can hold is its kind letter, and a digit follows it. */
  lemma DescrEntryLetters(byteOrder: char, typeChar: char, wordSize: nat)
    requires byteOrder == '<' || byteOrder == '|'
    ensures var d := DescrEntry(byteOrder, typeChar, wordSize);
            forall m :: 0 <= m < |d| && d[m] == 'f' ==> m == 11 && 12 < |d| && IsDigit(d[12])
  {
    var digits := Decimal(wordSize);
    var d := DescrEntry(byteOrder, typeChar, wordSize);
    assert d == "'descr': '" + [byteOrder, typeChar] + digits + "', ";
    assert d[12] == digits[0];
  }

  /** `find` gives `|p|` when `pat` starts nowhere inside `p` and right after it. */
  lemma FindFirstAt(p: string, pat: string, rest: string)
    requires forall j :: 0 <= j < |p| ==> !OccursAt(p + (pat + rest), pat, j)
    ensures Find(p + (pat + rest), pat) == Some(|p|)
  {
    FindAtStart(pat, rest);
    FindAfter(p, pat + rest, pat);
  }

  /** "descr" right after a quote that follows text without a 'd' is found there. */
  lemma FindDescr(lead: string, rest: string)
    requires 'd' !in lead
    ensures Find(lead + ("'descr" + rest), "descr") == Some(|lead| + 1)
  {
    var p := lead + "'";
    assert lead + ("'descr" + rest) == p + ("descr" + rest);
    NoStartWithout(p, "descr" + rest, "descr");
    FindFirstAt(p, "descr", rest);
  }

  /** "fortran_order" after text in which every 'f' is followed by something other than 'o'. */
  lemma FindFortranOrder(p: string, rest: string)
    requires forall k :: 0 <= k < |p| && p[k] == 'f' ==> k + 1 < |p| && p[k + 1] != 'o'
    ensures Find(p + ("fortran_order" + rest), "fortran_order") == Some(|p|)
  {
    NoStartBefore(p, "fortran_order" + rest, "fortran_order");
    FindFirstAt(p, "fortran_order", rest);
  }

  /** The text up to the quote that opens "fortran_order" has no "fo": the only possible 'f'
      is the kind letter, which a digit follows. */
  lemma NoFortranOrderBefore(lead: string, byteOrder: char, typeChar: char, wordSize: nat)
    requires 'f' !in lead
    requires byteOrder == '<' || byteOrder == '|'
    ensures var p := lead + DescrEntry(byteOrder, typeChar, wordSize) + "'";
            forall k :: 0 <= k < |p| && p[k] == 'f' ==> k + 1 < |p| && p[k + 1] != 'o'
  {
    var d := DescrEntry(byteOrder, typeChar, wordSize);
    var p := lead + d + "'";
    DescrEntryLetters(byteOrder, typeChar, wordSize);
    forall k | 0 <= k < |p| && p[k] == 'f'
      ensures k + 1 < |p| && p[k + 1] != 'o'
    {
      if |lead| <= k < |lead| + |d| {
        assert d[k - |lead|] == 'f';
        assert p[k + 1] == d[12];
      }
    }
  }

  /** The text of a header: `lead`, the dictionary's entries in the order NumPy writes them,
      then `trail`. */
  function HeaderText(lead: string, byteOrder: char, typeChar: char, wordSize: nat, fortranOrder: bool,
                      shape: seq<nat>, trail: string): string {
    lead + DescrEntry(byteOrder, typeChar, wordSize) + FortranEntry(fortranOrder) + ShapeEntry(shape) + trail
  }

  /** The characters a header's leading text must not hold for the keywords to be found in the
      entries: the first letters of "descr" and "fortran_order", and the parentheses. */
  predicate QuietLead(lead: string) {
    'd' !in lead && 'f' !in lead && '(' !in lead && ')' !in lead
  }

  /** The memory order entry after text without "fo": the keyword is found there and the
      four characters 16 past it are "True" exactly for a "True" value. */
  lemma FortranOrderAfter(p: string, value: string, tail: string)
    requires forall k :: 0 <= k < |p| && p[k] == 'f' ==> k + 1 < |p| && p[k + 1] != 'o'
    requires value == "True" || value == "False"
    ensures var text := p + ("fortran_order" + ("': " + (value + tail)));
            && Find(text, "fortran_order") == Some(|p|)
            && |p| + 20 <= |text|
            && (OccursAt(text, "True", |p| + 16) <==> value == "True")
  {
    var rest := "': " + (value + tail);
    FindFortranOrder(p, rest);
    var text := p + ("fortran_order" + rest);
    assert text[|p| + 16..|p| + 20] == value[..4];
    if value == "False" {
      assert value[..4] == "Fals";
    }
  }

  /** The first '(' and the first ')' of a text without parentheses before them enclose `body`. */
  lemma ParenthesesAfter(p: string, body: string, tail: string)
    requires '(' !in p && ')' !in p && '(' !in body && ')' !in body
    ensures var text := p + ("(" + (body + (")" + tail)));
            && Find(text, "(") == Some(|p|)
            && Find(text, ")") == Some(|p| + 1 + |body|)
            && text[|p| + 1..|p| + 1 + |body|] == body
  {
    var text := p + ("(" + (body + (")" + tail)));
    NoStartWithout(p, "(" + (body + (")" + tail)), "(");
    FindFirstAt(p, "(", body + (")" + tail));
    var q := p + "(" + body;
    assert text == q + (")" + tail);
    NoStartWithout(q, ")" + tail, ")");
    FindFirstAt(q, ")", tail);
  }

  /** The descriptor's fields 9 past "descr": byte order, kind letter, then the digits up to
      the closing quote, which `atoi` reads. */
  lemma DescrAfter(lead: string, byteOrder: char, typeChar: char, digits: string, tail: string)
    requires 'd' !in lead && '\'' !in digits
    ensures var text := lead + ("'descr" + ("': '" + ([byteOrder, typeChar] + (digits + ("'" + tail)))));
            var loc := |lead| + 10;
            && Find(text, "descr") == Some(|lead| + 1)
            && loc + 2 <= |text| && text[loc] == byteOrder && text[loc + 1] == typeChar
            && UpToQuote(text[loc + 2..]) == digits
  {
    var rest := "': '" + ([byteOrder, typeChar] + (digits + ("'" + tail)));
    FindDescr(lead, rest);
    var text := lead + ("'descr" + rest);
    var loc := |lead| + 10;
    assert text[loc + 2..] == digits + ("'" + tail);
    NoStartWithout(digits, "'" + tail, "'");
    FindFirstAt(digits, "'", tail);
    assert (digits + ("'" + tail))[..|digits|] == digits;
  }

  /** Where NumPy's entries put "fortran_order", and what follows it. */
  lemma FortranOrderInEntries(lead: string, d: string, value: string, sh: string, trail: string)
    requires forall k :: 0 <= k < |lead + d + "'"| && (lead + d + "'")[k] == 'f' ==>
               k + 1 < |lead + d + "'"| && (lead + d + "'")[k + 1] != 'o'
    requires value == "True" || value == "False"
    ensures var text := lead + d + ("'fortran_order': " + value + ", ") + sh + trail;
            var i := |lead| + |d| + 1;
            && Find(text, "fortran_order") == Some(i) && i + 20 <= |text|
            && (OccursAt(text, "True", i + 16) <==> value == "True")
  {
    var text := lead + d + ("'fortran_order': " + value + ", ") + sh + trail;
    assert text == (lead + d + "'") + ("fortran_order" + ("': " + (value + (", " + sh + trail))));
    FortranOrderAfter(lead + d + "'", value, ", " + sh + trail);
  }

  /** Both variants read the memory order 16 past the keyword. */
  lemma MemoryOrderFound(text: CppString, i: nat, fortranOrder: bool)
    requires Find(text, "fortran_order") == Some(i) && i + 20 <= |text|
    requires OccursAt(text, "True", i + 16) <==> fortranOrder
    ensures FortranOrderChecked(text) == Ok(fortranOrder) && FortranOrderUnchecked(text) == Ok(fortranOrder)
  {
  }

  /** Where NumPy's entries put the parentheses, and what they enclose. */
  lemma ParenthesesInEntries(lead: string, d: string, f: string, tb: string, trail: string)
    requires '(' !in lead + d + f && ')' !in lead + d + f && '(' !in tb && ')' !in tb
    ensures var text := lead + d + f + ("'shape': (" + tb + "), }") + trail;
            var open := |lead| + |d| + |f| + 9;
            var close := open + 1 + |tb|;
            && Find(text, "(") == Some(open) && Find(text, ")") == Some(close)
            && text[open + 1..close] == tb
  {
    var text := lead + d + f + ("'shape': (" + tb + "), }") + trail;
    assert text == (lead + d + f + "'shape': ") + ("(" + (tb + (")" + (", }" + trail))));
    ParenthesesAfter(lead + d + f + "'shape': ", tb, ", }" + trail);
  }

  /** Both variants take the text strictly between the parentheses when '(' comes first. */
  lemma ShapeTextFound(text: CppString, open: nat, close: nat)
    requires Find(text, "(") == Some(open) && Find(text, ")") == Some(close) && open < close
    ensures ShapeTextChecked(text) == Ok(text[open + 1..close]) && ShapeTextUnchecked(text) == text[open + 1..close]
  {
  }

  /** Where NumPy's entries put the descriptor's fields. */
  lemma DescrInEntries(lead: string, byteOrder: char, typeChar: char, digits: string, f: string, sh: string, trail: string)
    requires 'd' !in lead && '\'' !in digits
    ensures var text := lead + ("'descr': '" + [byteOrder, typeChar] + digits + "', ") + f + sh + trail;
            var loc := |lead| + 10;
            && Find(text, "descr") == Some(|lead| + 1)
            && loc + 2 <= |text| && text[loc] == byteOrder && text[loc + 1] == typeChar
            && UpToQuote(text[loc + 2..]) == digits
  {
    var text := lead + ("'descr': '" + [byteOrder, typeChar] + digits + "', ") + f + sh + trail;
    assert text == lead + ("'descr" + ("': '" + ([byteOrder, typeChar] + (digits + ("'" + (", " + f + sh + trail))))));
    DescrAfter(lead, byteOrder, typeChar, digits, ", " + f + sh + trail);
  }

  /** The descriptor found 9 past "descr" is the one that was written. */
  lemma DescrFound(text: CppString, d: nat, byteOrder: char, typeChar: char, wordSize: nat)
    requires Find(text, "descr") == Some(d) && d + 11 <= |text|
    requires text[d + 9] == byteOrder && text[d + 10] == typeChar && UpToQuote(text[d + 11..]) == Decimal(wordSize)
    requires (byteOrder == '<' || byteOrder == '|') && TypeFromCharAndSize(typeChar, wordSize).Ok?
    requires wordSize <= INT_MAX
    ensures DescrOf(text) == Ok((wordSize, TypeFromCharAndSize(typeChar, wordSize).value))
  {
    AtoiOfDecimal(wordSize, "");
    assert Decimal(wordSize) + "" == Decimal(wordSize);
  }

  /** The entries hold no parenthesis before the shape's. */
  lemma EntriesBeforeShape(lead: string, byteOrder: char, typeChar: char, wordSize: nat, fortranOrder: bool)
    requires '(' !in lead && ')' !in lead
    requires byteOrder == '<' || byteOrder == '|'
    requires typeChar != '(' && typeChar != ')'
    ensures var p := lead + DescrEntry(byteOrder, typeChar, wordSize) + FortranEntry(fortranOrder);
            '(' !in p && ')' !in p
  {
    DescrEntryWithoutParentheses(byteOrder, typeChar, wordSize);
    FortranEntryWithoutParentheses(fortranOrder);
  }

  lemma DescrEntryWithoutParentheses(byteOrder: char, typeChar: char, wordSize: nat)
    requires byteOrder == '<' || byteOrder == '|'
    requires typeChar != '(' && typeChar != ')'
    ensures '(' !in DescrEntry(byteOrder, typeChar, wordSize) && ')' !in DescrEntry(byteOrder, typeChar, wordSize)
  {
    var digits := Decimal(wordSize);
    assert '(' !in digits && ')' !in digits;
  }

  lemma FortranEntryWithoutParentheses(fortranOrder: bool)
    ensures '(' !in FortranEntry(fortranOrder) && ')' !in FortranEntry(fortranOrder)
  {
  }

  /** Both variants read back the memory order written in the entries, after leading text
      without 'd' or 'f'. */
  lemma MemoryOrderOfEntries(lead: string, byteOrder: char, typeChar: char, wordSize: nat, fortranOrder: bool,
                             shape: seq<nat>, trail: string)
    requires 'd' !in lead && 'f' !in lead && (byteOrder == '<' || byteOrder == '|')
    requires |HeaderText(lead, byteOrder, typeChar, wordSize, fortranOrder, shape, trail)| < MAX_SIZE
    ensures var text := HeaderText(lead, byteOrder, typeChar, wordSize, fortranOrder, shape, trail);
            FortranOrderChecked(text) == Ok(fortranOrder) && FortranOrderUnchecked(text) == Ok(fortranOrder)
  {
    var text := HeaderText(lead, byteOrder, typeChar, wordSize, fortranOrder, shape, trail);
    var d := DescrEntry(byteOrder, typeChar, wordSize);
    var value := if fortranOrder then "True" else "False";
    NoFortranOrderBefore(lead, byteOrder, typeChar, wordSize);
    FortranOrderInEntries(lead, d, value, ShapeEntry(shape), trail);
    MemoryOrderFound(text, |lead| + |d| + 1, fortranOrder);
  }

  /** Both variants take exactly the tuple's body as the shape text of the entries. */
  lemma ShapeTextOfEntries(lead: string, byteOrder: char, typeChar: char, wordSize: nat, fortranOrder: bool,
                           shape: seq<nat>, trail: string)
    requires QuietLead(lead) && (byteOrder == '<' || byteOrder == '|') && typeChar != '(' && typeChar != ')'
    requires |HeaderText(lead, byteOrder, typeChar, wordSize, fortranOrder, shape, trail)| < MAX_SIZE
    ensures var text := HeaderText(lead, byteOrder, typeChar, wordSize, fortranOrder, shape, trail);
            ShapeTextChecked(text) == Ok(TupleBody(shape)) && ShapeTextUnchecked(text) == TupleBody(shape)
  {
    EntriesBeforeShape(lead, byteOrder, typeChar, wordSize, fortranOrder);
    TupleBodyChars(shape);
    var tb := TupleBody(shape);
    assert '(' !in tb && ')' !in tb;
    EntriesShapeText(lead, DescrEntry(byteOrder, typeChar, wordSize), FortranEntry(fortranOrder), tb, trail);
  }

  lemma EntriesShapeText(lead: string, d: string, f: string, tb: string, trail: string)
    requires '(' !in lead + d + f && ')' !in lead + d + f && '(' !in tb && ')' !in tb
    requires |lead + d + f + ("'shape': (" + tb + "), }") + trail| < MAX_SIZE
    ensures var text := lead + d + f + ("'shape': (" + tb + "), }") + trail;
            ShapeTextChecked(text) == Ok(tb) && ShapeTextUnchecked(text) == tb
  {
    ParenthesesInEntries(lead, d, f, tb, trail);
    var open := |lead| + |d| + |f| + 9;
    ShapeTextFound(lead + d + f + ("'shape': (" + tb + "), }") + trail, open, open + 1 + |tb|);
  }

  /** Both variants read back the word size and dtype written in the entries, after leading
      text without 'd'. */
  lemma DescrOfEntries(lead: string, byteOrder: char, typeChar: char, wordSize: nat, fortranOrder: bool,
                       shape: seq<nat>, trail: string)
    requires 'd' !in lead && Readable(byteOrder, typeChar, wordSize, shape)
    requires |HeaderText(lead, byteOrder, typeChar, wordSize, fortranOrder, shape, trail)| < MAX_SIZE
    ensures var text := HeaderText(lead, byteOrder, typeChar, wordSize, fortranOrder, shape, trail);
            DescrOf(text) == Ok((wordSize, TypeFromCharAndSize(typeChar, wordSize).value))
  {
    var text := HeaderText(lead, byteOrder, typeChar, wordSize, fortranOrder, shape, trail);
    var digits := Decimal(wordSize);
    assert '\'' !in digits;
    DescrInEntries(lead, byteOrder, typeChar, digits, FortranEntry(fortranOrder), ShapeEntry(shape), trail);
    DescrFound(text, |lead| + 1, byteOrder, typeChar, wordSize);
  }

  /** A kind letter the table knows is never a parenthesis. */
  lemma KindLetterNotParenthesis(typeChar: char, wordSize: nat)
    requires TypeFromCharAndSize(typeChar, wordSize).Ok?
    ensures typeChar != '(' && typeChar != ')'
  {
  }

  /** Both variants decode the entries NumPy writes back into the header they describe, after
      any leading text without 'd', 'f' or parentheses and before anything at all. */
  lemma DecodeHeaderEntries(lead: string, byteOrder: char, typeChar: char, wordSize: nat, fortranOrder: bool,
                            shape: seq<nat>, trail: string, checked: bool)
    requires QuietLead(lead) && Readable(byteOrder, typeChar, wordSize, shape)
    requires |HeaderText(lead, byteOrder, typeChar, wordSize, fortranOrder, shape, trail)| < MAX_SIZE
    ensures DecodeHeaderText(HeaderText(lead, byteOrder, typeChar, wordSize, fortranOrder, shape, trail), checked)
            == Ok(Header(wordSize, shape, fortranOrder, TypeFromCharAndSize(typeChar, wordSize).value))
  {
    MemoryOrderOfEntries(lead, byteOrder, typeChar, wordSize, fortranOrder, shape, trail);
    KindLetterNotParenthesis(typeChar, wordSize);
    ShapeTextOfEntries(lead, byteOrder, typeChar, wordSize, fortranOrder, shape, trail);
    ShapeRoundTrip(shape);
    DescrOfEntries(lead, byteOrder, typeChar, wordSize, fortranOrder, shape, trail);
  }

  // ---------------------------------------------------------------- the NPY preamble

  /** The magic string "\x93NUMPY" and version 1.0. */
  const MAGIC: seq<byte> := [0x93, 78, 85, 77, 80, 89, 1, 0]

  /** Printable ASCII: no newline, no NUL, and every character fits in a byte. */
  predicate Printable(s: string) {
    forall k :: 0 <= k < |s| ==> ' ' <= s[k] <= '~'
  }

  /** The header dictionary NumPy writes, padded with `pad` spaces and ended by a newline. */
  function Dictionary(byteOrder: char, typeChar: char, wordSize: nat, fortranOrder: bool, shape: seq<nat>,
                      pad: nat): string {
    HeaderText("{", byteOrder, typeChar, wordSize, fortranOrder, shape, Spaces(pad) + "\n")
  }

  lemma PrintableConcat(a: string, b: string)
    requires Printable(a) && Printable(b)
    ensures Printable(a + b)
  {
  }

  lemma DescrEntryPrintable(byteOrder: char, typeChar: char, wordSize: nat)
    requires (byteOrder == '<' || byteOrder == '|') && TypeFromCharAndSize(typeChar, wordSize).Ok?
    ensures Printable(DescrEntry(byteOrder, typeChar, wordSize))
  {
    var digits := Decimal(wordSize);
    assert Printable(digits);
    PrintableConcat("'descr': '" + [byteOrder, typeChar], digits);
    PrintableConcat("'descr': '" + [byteOrder, typeChar] + digits, "', ");
  }

  lemma ShapeEntryPrintable(shape: seq<nat>)
    ensures Printable(ShapeEntry(shape))
  {
    TupleBodyChars(shape);
    PrintableConcat("'shape': (", TupleBody(shape));
    PrintableConcat("'shape': (" + TupleBody(shape), "), }");
  }

  /** Everything NumPy writes before the final newline is printable. */
  lemma DictionaryPrintable(byteOrder: char, typeChar: char, wordSize: nat, fortranOrder: bool, shape: seq<nat>,
                            pad: nat)
    requires Readable(byteOrder, typeChar, wordSize, shape)
    ensures var dict := Dictionary(byteOrder, typeChar, wordSize, fortranOrder, shape, pad);
            && |dict| > 0 && dict[|dict| - 1] == '\n' && Printable(dict[..|dict| - 1])
  {
    var d := DescrEntry(byteOrder, typeChar, wordSize);
    var f := FortranEntry(fortranOrder);
    var sh := ShapeEntry(shape);
    var dict := Dictionary(byteOrder, typeChar, wordSize, fortranOrder, shape, pad);
    var body := "{" + d + f + sh + Spaces(pad);
    assert dict == body + "\n";
    assert dict[..|dict| - 1] == body;
    DescrEntryPrintable(byteOrder, typeChar, wordSize);
    ShapeEntryPrintable(shape);
    PrintableConcat("{", d);
    PrintableConcat("{" + d, f);
    PrintableConcat("{" + d + f, sh);
    PrintableConcat("{" + d + f + sh, Spaces(pad));
  }

  /** A line that ends in its only newline is byte text when the rest of it is printable. */
  lemma LineIsByteText(line: string)
    requires |line| > 0 && line[|line| - 1] == '\n' && Printable(line[..|line| - 1])
    ensures IsByteText(line) && '\0' !in line
    ensures forall k :: 0 <= k < |line| - 1 ==> line[k] != '\n'
  {
    forall k | 0 <= k < |line| - 1
      ensures ' ' <= line[k] <= '~'
    {
      assert line[k] == line[..|line| - 1][k];
    }
  }

  /** The preamble and header of an NPY 1.0 file: magic string, version, the little-endian
      length of the dictionary, then the dictionary. */
  function EncodeHeader(byteOrder: char, typeChar: char, wordSize: nat, fortranOrder: bool, shape: seq<nat>,
                        pad: nat): (r: seq<byte>)
    requires Readable(byteOrder, typeChar, wordSize, shape)
    requires |Dictionary(byteOrder, typeChar, wordSize, fortranOrder, shape, pad)| < TWO_16
    ensures |r| == 10 + |Dictionary(byteOrder, typeChar, wordSize, fortranOrder, shape, pad)|
  {
    var dict := Dictionary(byteOrder, typeChar, wordSize, fortranOrder, shape, pad);
    DictionaryPrintable(byteOrder, typeChar, wordSize, fortranOrder, shape, pad);
    LineIsByteText(dict);
    MAGIC + LE16(|dict|) + BytesOf(dict)
  }

  /** `fgets` stops right after the first newline when it comes within `max` bytes. */
  lemma {:induction false} LineLengthOfLine(line: seq<byte>, rest: seq<byte>, max: nat)
    requires 0 < |line| <= max && line[|line| - 1] == NEWLINE
    requires forall k :: 0 <= k < |line| - 1 ==> line[k] != NEWLINE
    ensures LineLength(line + rest, max) == |line|
  {
    if |line| > 1 {
      assert (line + rest)[1..] == line[1..] + rest;
      LineLengthOfLine(line[1..], rest, max - 1);
    }
  }

  /** A text without NUL is kept whole by `std::string`'s C-string constructor. */
  lemma {:induction false} UpToNulWithoutNul(s: string)
    requires '\0' !in s
    ensures UpToNul(s) == s
  {
    if s != [] {
      UpToNulWithoutNul(s[1..]);
    }
  }

  /** A header line: what follows the '{' of a dictionary NumPy wrote. */
  predicate HeaderLine(dict: string) {
    && 2 <= |dict| < TWO_16 && dict[|dict| - 1] == '\n' && Printable(dict[..|dict| - 1])
    && IsByteText(dict)
  }

  lemma DictionaryIsHeaderLine(byteOrder: char, typeChar: char, wordSize: nat, fortranOrder: bool, shape: seq<nat>,
                               pad: nat)
    requires Readable(byteOrder, typeChar, wordSize, shape)
    requires |Dictionary(byteOrder, typeChar, wordSize, fortranOrder, shape, pad)| < TWO_16
    ensures HeaderLine(Dictionary(byteOrder, typeChar, wordSize, fortranOrder, shape, pad))
    ensures EncodeHeader(byteOrder, typeChar, wordSize, fortranOrder, shape, pad)
            == MAGIC + LE16(|Dictionary(byteOrder, typeChar, wordSize, fortranOrder, shape, pad)|)
               + BytesOf(Dictionary(byteOrder, typeChar, wordSize, fortranOrder, shape, pad))
  {
    DictionaryPrintable(byteOrder, typeChar, wordSize, fortranOrder, shape, pad);
    LineIsByteText(Dictionary(byteOrder, typeChar, wordSize, fortranOrder, shape, pad));
  }

  /** The stream variant takes the header line after the preamble and the '{', whole. */
  lemma StreamTakesLine(dict: string, rest: seq<byte>)
    requires HeaderLine(dict) && |dict| <= LINE_MAX + 1
    ensures var s := MAGIC + LE16(|dict|) + BytesOf(dict) + rest;
            && 11 <= |s| && LineLength(s[11..], LINE_MAX) == |dict| - 1
            && UpToNul(Chars(s[11..10 + |dict|])) == dict[1..]
  {
    LineIsByteText(dict);
    var s := MAGIC + LE16(|dict|) + BytesOf(dict) + rest;
    var line := BytesOf(dict)[1..];
    assert s[11..] == line + rest;
    forall k | 0 <= k < |line| - 1
      ensures line[k] != NEWLINE
    {
      assert dict[k + 1] != '\n';
    }
    LineLengthOfLine(line, rest, LINE_MAX);
    assert s[11..10 + |dict|] == line;
    assert Chars(line) == dict[1..];
    UpToNulWithoutNul(dict[1..]);
  }

  /** After its '{', the dictionary is the entries then the padding and newline. */
  lemma DictionaryAfterBrace(byteOrder: char, typeChar: char, wordSize: nat, fortranOrder: bool, shape: seq<nat>,
                             pad: nat)
    ensures Dictionary(byteOrder, typeChar, wordSize, fortranOrder, shape, pad)[1..]
            == HeaderText("", byteOrder, typeChar, wordSize, fortranOrder, shape, Spaces(pad) + "\n")
  {
  }

  /** The stream variant reads back the header NumPy wrote, consuming exactly the preamble and
      the dictionary, when the dictionary fits `fgets`'s 256-byte buffer after its '{'. */
  lemma StreamHeaderRoundTrip(byteOrder: char, typeChar: char, wordSize: nat, fortranOrder: bool, shape: seq<nat>,
                              pad: nat, rest: seq<byte>)
    requires Readable(byteOrder, typeChar, wordSize, shape)
    requires |Dictionary(byteOrder, typeChar, wordSize, fortranOrder, shape, pad)| <= LINE_MAX + 1
    ensures var encoded := EncodeHeader(byteOrder, typeChar, wordSize, fortranOrder, shape, pad);
            HeaderOfStream(encoded + rest)
            == Step(Ok(Header(wordSize, shape, fortranOrder, TypeFromCharAndSize(typeChar, wordSize).value)), |encoded|)
  {
    var dict := Dictionary(byteOrder, typeChar, wordSize, fortranOrder, shape, pad);
    DictionaryIsHeaderLine(byteOrder, typeChar, wordSize, fortranOrder, shape, pad);
    StreamTakesLine(dict, rest);
    DictionaryAfterBrace(byteOrder, typeChar, wordSize, fortranOrder, shape, pad);
    DecodeHeaderEntries("", byteOrder, typeChar, wordSize, fortranOrder, shape, Spaces(pad) + "\n", true);
  }

  /** The in-memory variant takes as its text the length's high byte, then the header line
      without its newline. */
  lemma BufferTakesText(dict: string, rest: seq<byte>)
    requires HeaderLine(dict)
    ensures var buffer := MAGIC + LE16(|dict|) + BytesOf(dict) + rest;
            && 10 <= |buffer| && FieldLE(buffer, 8, 2) == |dict|
            && Chars(buffer[9..9 + |dict|]) == [(|dict| / 256) as char] + dict[..|dict| - 1]
  {
    var n := |dict|;
    var bytes := BytesOf(dict);
    var buffer := MAGIC + LE16(n) + bytes + rest;
    assert buffer[8..10] == LE16(n);
    var mid := LE16(n)[1..] + bytes[..n - 1];
    assert buffer == (MAGIC + LE16(n)[..1]) + mid + (bytes[n - 1..] + rest);
    MiddleSlice(MAGIC + LE16(n)[..1], mid, bytes[n - 1..] + rest);
    HighByteThenLine(dict);
  }

  lemma MiddleSlice(front: seq<byte>, mid: seq<byte>, back: seq<byte>)
    ensures (front + mid + back)[|front|..|front| + |mid|] == mid
  {
  }

  /** The length's high byte, then the line's bytes but the last, read as characters. */
  lemma HighByteThenLine(dict: string)
    requires HeaderLine(dict)
    ensures Chars(LE16(|dict|)[1..] + BytesOf(dict)[..|dict| - 1]) == [(|dict| / 256) as char] + dict[..|dict| - 1]
  {
    var n := |dict|;
    var mid := LE16(n)[1..] + BytesOf(dict)[..n - 1];
    var text := [(n / 256) as char] + dict[..n - 1];
    assert |mid| == n && |text| == n;
    forall k | 0 <= k < n
      ensures Chars(mid)[k] == text[k]
    {
      if k == 0 {
        assert mid[0] == LE16(n)[1] == n / 256;
      } else {
        assert mid[k] == BytesOf(dict)[k - 1] && text[k] == dict[k - 1];
      }
    }
  }

  /** Without its newline, the dictionary is the entries after the '{', then the padding. */
  lemma DictionaryBeforeNewline(high: char, byteOrder: char, typeChar: char, wordSize: nat, fortranOrder: bool,
                                shape: seq<nat>, pad: nat)
    ensures var dict := Dictionary(byteOrder, typeChar, wordSize, fortranOrder, shape, pad);
            [high] + dict[..|dict| - 1]
            == HeaderText([high, '{'], byteOrder, typeChar, wordSize, fortranOrder, shape, Spaces(pad))
  {
    NewlineDropped(high, DescrEntry(byteOrder, typeChar, wordSize), FortranEntry(fortranOrder), ShapeEntry(shape),
                   Spaces(pad));
  }

  lemma NewlineDropped(high: char, a: string, b: string, c: string, trail: string)
    ensures var dict := "{" + a + b + c + (trail + "\n");
            [high] + dict[..|dict| - 1] == [high, '{'] + a + b + c + trail
  {
    var dict := "{" + a + b + c + (trail + "\n");
    assert dict == ("{" + a + b + c + trail) + "\n";
    assert dict[..|dict| - 1] == "{" + a + b + c + trail;
  }

  /** The in-memory variant reads back the header NumPy wrote, from a buffer that starts with it,
      when the length's high byte, which it takes as the text's first character, is below '('. */
  lemma BufferHeaderRoundTrip(byteOrder: char, typeChar: char, wordSize: nat, fortranOrder: bool, shape: seq<nat>,
                              pad: nat, rest: seq<byte>)
    requires Readable(byteOrder, typeChar, wordSize, shape)
    requires |Dictionary(byteOrder, typeChar, wordSize, fortranOrder, shape, pad)| < 40 * 256
    ensures HeaderOfBuffer(EncodeHeader(byteOrder, typeChar, wordSize, fortranOrder, shape, pad) + rest)
            == Ok(Header(wordSize, shape, fortranOrder, TypeFromCharAndSize(typeChar, wordSize).value))
  {
    var high := (|Dictionary(byteOrder, typeChar, wordSize, fortranOrder, shape, pad)| / 256) as char;
    DictionaryBeforeNewline(high, byteOrder, typeChar, wordSize, fortranOrder, shape, pad);
    DecodeHeaderEntries([high, '{'], byteOrder, typeChar, wordSize, fortranOrder, shape, Spaces(pad), false);
    BufferHoldsText(byteOrder, typeChar, wordSize, fortranOrder, shape, pad, rest);
  }

  /** What the in-memory variant decodes from a buffer that starts with NumPy's header: the
      entries after the length's high byte and a '{', then the padding. */
  lemma BufferHoldsText(byteOrder: char, typeChar: char, wordSize: nat, fortranOrder: bool, shape: seq<nat>,
                        pad: nat, rest: seq<byte>)
    requires Readable(byteOrder, typeChar, wordSize, shape)
    requires |Dictionary(byteOrder, typeChar, wordSize, fortranOrder, shape, pad)| < TWO_16
    ensures var dict := Dictionary(byteOrder, typeChar, wordSize, fortranOrder, shape, pad);
            var text := HeaderText([(|dict| / 256) as char, '{'], byteOrder, typeChar, wordSize, fortranOrder, shape,
                                   Spaces(pad));
            && |text| == |dict|
            && HeaderOfBuffer(EncodeHeader(byteOrder, typeChar, wordSize, fortranOrder, shape, pad) + rest)
               == DecodeHeaderText(text, false)
  {
    var dict := Dictionary(byteOrder, typeChar, wordSize, fortranOrder, shape, pad);
    DictionaryIsHeaderLine(byteOrder, typeChar, wordSize, fortranOrder, shape, pad);
    var high := (|dict| / 256) as char;
    DictionaryBeforeNewline(high, byteOrder, typeChar, wordSize, fortranOrder, shape, pad);
    LineInBuffer(dict, HeaderText([high, '{'], byteOrder, typeChar, wordSize, fortranOrder, shape, Spaces(pad)), rest);
  }

  /** A buffer that starts with the preamble and the header line `dict` decodes as the text
      made of the length's high byte and the line without its newline. */
  lemma LineInBuffer(dict: string, text: string, rest: seq<byte>)
    requires HeaderLine(dict) && text == [(|dict| / 256) as char] + dict[..|dict| - 1]
    ensures HeaderOfBuffer(MAGIC + LE16(|dict|) + BytesOf(dict) + rest) == DecodeHeaderText(text, false)
  {
    BufferTakesText(dict, rest);
    BufferHeaderOfText(MAGIC + LE16(|dict|) + BytesOf(dict) + rest, |dict|, text);
  }

  lemma BufferHeaderOfText(buffer: seq<byte>, headerLen: nat, text: string)
    requires 10 <= |buffer| && FieldLE(buffer, 8, 2) == headerLen && 9 + headerLen <= |buffer|
    requires Chars(buffer[9..9 + headerLen]) == text
    ensures HeaderOfBuffer(buffer) == DecodeHeaderText(text, false)
  {
  }
  // ---------------------------------------------------------------- the offset of the header text

  /** With the length's high byte at '(' (a header line of 10240 to 10495 bytes) the in-memory
      variant takes that byte for the shape's opening parenthesis: the word size, the only
      digits between it and the shape's ')', becomes an extra leading dimension. */
  lemma BufferMisreadsShape(byteOrder: char, typeChar: char, wordSize: nat, fortranOrder: bool, shape: seq<nat>,
                            pad: nat, rest: seq<byte>)
    requires Readable(byteOrder, typeChar, wordSize, shape)
    requires 40 * 256 <= |Dictionary(byteOrder, typeChar, wordSize, fortranOrder, shape, pad)| < 41 * 256
    ensures HeaderOfBuffer(EncodeHeader(byteOrder, typeChar, wordSize, fortranOrder, shape, pad) + rest)
            == Ok(Header(wordSize, [wordSize] + shape, fortranOrder, TypeFromCharAndSize(typeChar, wordSize).value))
  {
    var dict := Dictionary(byteOrder, typeChar, wordSize, fortranOrder, shape, pad);
    assert (|dict| / 256) as char == '(';
    BufferHoldsText(byteOrder, typeChar, wordSize, fortranOrder, shape, pad, rest);
    DecodeAfterLeadParen(byteOrder, typeChar, wordSize, fortranOrder, shape, Spaces(pad));
  }

  /** The header decoded from entries after a leading '(' and '{'. */
  lemma DecodeAfterLeadParen(byteOrder: char, typeChar: char, wordSize: nat, fortranOrder: bool,
                             shape: seq<nat>, trail: string)
    requires Readable(byteOrder, typeChar, wordSize, shape)
    requires |HeaderText(['(', '{'], byteOrder, typeChar, wordSize, fortranOrder, shape, trail)| < MAX_SIZE
    ensures DecodeHeaderText(HeaderText(['(', '{'], byteOrder, typeChar, wordSize, fortranOrder, shape, trail), false)
            == Ok(Header(wordSize, [wordSize] + shape, fortranOrder, TypeFromCharAndSize(typeChar, wordSize).value))
  {
    var lead := ['(', '{'];
    MemoryOrderOfEntries(lead, byteOrder, typeChar, wordSize, fortranOrder, shape, trail);
    DescrOfEntries(lead, byteOrder, typeChar, wordSize, fortranOrder, shape, trail);
    ShapeTextAfterLeadParen(byteOrder, typeChar, wordSize, fortranOrder, shape, trail);
    MisreadShape(byteOrder, typeChar, wordSize, fortranOrder, shape);
  }

  /** After a leading '(' the shape text runs from the '{' to the shape's ')'. */
  lemma ShapeTextAfterLeadParen(byteOrder: char, typeChar: char, wordSize: nat, fortranOrder: bool,
                                shape: seq<nat>, trail: string)
    requires Readable(byteOrder, typeChar, wordSize, shape)
    requires |HeaderText(['(', '{'], byteOrder, typeChar, wordSize, fortranOrder, shape, trail)| < MAX_SIZE
    ensures ShapeTextUnchecked(HeaderText(['(', '{'], byteOrder, typeChar, wordSize, fortranOrder, shape, trail))
            == "{" + DescrEntry(byteOrder, typeChar, wordSize) + FortranEntry(fortranOrder) + "'shape': ("
               + TupleBody(shape)
  {
    KindLetterNotParenthesis(typeChar, wordSize);
    EntriesBeforeShape("{", byteOrder, typeChar, wordSize, fortranOrder);
    TupleBodyChars(shape);
    LeadParenShapeText(DescrEntry(byteOrder, typeChar, wordSize), FortranEntry(fortranOrder), TupleBody(shape), trail);
  }

  lemma LeadParenShapeText(d: string, f: string, tb: string, trail: string)
    requires ')' !in "{" + d + f && ')' !in tb
    requires |['(', '{'] + d + f + ("'shape': (" + tb + "), }") + trail| < MAX_SIZE
    ensures ShapeTextUnchecked(['(', '{'] + d + f + ("'shape': (" + tb + "), }") + trail)
            == "{" + d + f + "'shape': (" + tb
  {
    var text := ['(', '{'] + d + f + ("'shape': (" + tb + "), }") + trail;
    var inner := "{" + d + f + "'shape': (" + tb;
    var tail := ", }" + trail;
    assert ')' !in "(" + inner;
    LeadParenText(d, f, tb, trail);
    FindAtStart("(", inner + (")" + tail));
    assert text == ("(" + inner) + (")" + tail);
    NoStartWithout("(" + inner, ")" + tail, ")");
    FindFirstAt("(" + inner, ")", tail);
    assert text[1..1 + |inner|] == inner;
  }

  lemma LeadParenText(d: string, f: string, tb: string, trail: string)
    ensures ['(', '{'] + d + f + ("'shape': (" + tb + "), }") + trail
            == "(" + (("{" + d + f + "'shape': (" + tb) + (")" + (", }" + trail)))
  {
    assert "), }" == ")" + ", }";
    assert ['(', '{'] == "(" + "{";
  }

  /** The digits of that shape text: the word size, then the dimensions. */
  lemma MisreadShape(byteOrder: char, typeChar: char, wordSize: nat, fortranOrder: bool, shape: seq<nat>)
    requires Readable(byteOrder, typeChar, wordSize, shape)
    ensures ShapeOf("{" + DescrEntry(byteOrder, typeChar, wordSize) + FortranEntry(fortranOrder) + "'shape': ("
                    + TupleBody(shape))
            == Ok([wordSize] + shape)
  {
    MiddleWithoutDigits(fortranOrder);
    assert !IsDigit(typeChar);
    MisreadRuns(byteOrder, typeChar, Decimal(wordSize), FortranEntry(fortranOrder), TupleBody(shape));
    TupleBodyRuns(shape);
    var dims := [wordSize] + shape;
    assert dims[1..] == shape;
    assert Decimals(dims) == [Decimal(wordSize)] + Decimals(shape);
    DimsOfDecimals(dims);
  }

  /** The runs of the misread shape text: the word size's digits, then those of the tuple. */
  lemma MisreadRuns(byteOrder: char, typeChar: char, digits: string, f: string, tb: string)
    requires !IsDigit(byteOrder) && !IsDigit(typeChar) && |digits| > 0 && AllDigits(digits)
    requires WithoutDigits("', " + f + "'shape': (")
    ensures DigitRuns("{" + ("'descr': '" + [byteOrder, typeChar] + digits + "', ") + f + "'shape': (" + tb)
            == [digits] + DigitRuns(tb)
  {
    var front := "{'descr': '" + [byteOrder, typeChar];
    var middle := "', " + f + "'shape': (";
    MisreadSplit(byteOrder, typeChar, digits, f, tb);
    assert WithoutDigits(front);
    NoDigitsThenRest(front, digits + (middle + tb));
    RunThenRest(digits, middle + tb);
    NoDigitsThenRest(middle, tb);
  }

  lemma MisreadSplit(byteOrder: char, typeChar: char, digits: string, f: string, tb: string)
    ensures "{" + ("'descr': '" + [byteOrder, typeChar] + digits + "', ") + f + "'shape': (" + tb
            == ("{'descr': '" + [byteOrder, typeChar]) + (digits + (("', " + f + "'shape': (") + tb))
  {
    assert "{" + "'descr': '" == "{'descr': '";
  }

  predicate WithoutDigits(s: string) {
    forall k :: 0 <= k < |s| ==> !IsDigit(s[k])
  }

  /** No digit between the word size and the shape's '('. */
  lemma MiddleWithoutDigits(fortranOrder: bool)
    ensures WithoutDigits("', " + FortranEntry(fortranOrder) + "'shape': (")
  {
    var value := if fortranOrder then "True" else "False";
    assert WithoutDigits(value);
    assert WithoutDigits("'fortran_order': ");
    WithoutDigitsConcat("'fortran_order': ", value);
    assert WithoutDigits(", ");
    WithoutDigitsConcat("'fortran_order': " + value, ", ");
    assert WithoutDigits("', ");
    WithoutDigitsConcat("', ", FortranEntry(fortranOrder));
    assert WithoutDigits("'shape': (");
    WithoutDigitsConcat("', " + FortranEntry(fortranOrder), "'shape': (");
  }

  lemma WithoutDigitsConcat(a: string, b: string)
    requires WithoutDigits(a) && WithoutDigits(b)
    ensures WithoutDigits(a + b)
  {
  }

  /** From offset 10 the in-memory variant would take the header line itself. */
  lemma BufferHoldsLine(dict: string, rest: seq<byte>)
    requires HeaderLine(dict)
    ensures var buffer := MAGIC + LE16(|dict|) + BytesOf(dict) + rest;
            && 10 <= |buffer| && FieldLE(buffer, 8, 2) == |dict| && 10 + |dict| <= |buffer|
            && Chars(buffer[10..10 + |dict|]) == dict
  {
    var n := |dict|;
    var buffer := MAGIC + LE16(n) + BytesOf(dict) + rest;
    assert buffer[8..10] == LE16(n);
    MiddleSlice(MAGIC + LE16(n), BytesOf(dict), rest);
    CharsOfBytesOf(dict);
  }

  /** The corrected in-memory variant reads back every header NumPy writes, whatever its length. */
  lemma BufferHeaderRoundTripFixed(byteOrder: char, typeChar: char, wordSize: nat, fortranOrder: bool,
                                   shape: seq<nat>, pad: nat, rest: seq<byte>)
    requires Readable(byteOrder, typeChar, wordSize, shape)
    requires |Dictionary(byteOrder, typeChar, wordSize, fortranOrder, shape, pad)| < TWO_16
    ensures HeaderOfBufferFixed(EncodeHeader(byteOrder, typeChar, wordSize, fortranOrder, shape, pad) + rest)
            == Ok(Header(wordSize, shape, fortranOrder, TypeFromCharAndSize(typeChar, wordSize).value))
  {
    var dict := Dictionary(byteOrder, typeChar, wordSize, fortranOrder, shape, pad);
    DecodeHeaderEntries("{", byteOrder, typeChar, wordSize, fortranOrder, shape, Spaces(pad) + "\n", false);
    DictionaryIsHeaderLine(byteOrder, typeChar, wordSize, fortranOrder, shape, pad);
    LineInBufferFixed(dict, rest);
  }

  /** From a buffer that starts with the preamble and the header line `dict`, the corrected
      variant decodes that line. */
  lemma LineInBufferFixed(dict: string, rest: seq<byte>)
    requires HeaderLine(dict)
    ensures HeaderOfBufferFixed(MAGIC + LE16(|dict|) + BytesOf(dict) + rest) == DecodeHeaderText(dict, false)
  {
    BufferHoldsLine(dict, rest);
    BufferHeaderOfLine(MAGIC + LE16(|dict|) + BytesOf(dict) + rest, |dict|, dict);
  }

  lemma BufferHeaderOfLine(buffer: seq<byte>, headerLen: nat, text: string)
    requires 10 <= |buffer| && FieldLE(buffer, 8, 2) == headerLen && 10 + headerLen <= |buffer|
    requires Chars(buffer[10..10 + headerLen]) == text
    ensures HeaderOfBufferFixed(buffer) == DecodeHeaderText(text, false)
  {
  }
}
