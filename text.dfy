/** The few operations of the C++ standard library the header decoder relies on:
    `std::string::find`, `std::string::substr` and `atoi`. */
module Text {
  import opened Bytes
  import opened Results

  /** `std::string::npos`, the largest `size_t`. */
  const NPOS: nat := TWO_64 - 1

  /** A `std::string`: its size is below `max_size()`, which is under 2^63 in the common
      standard libraries, so adding a small constant to an index of it never wraps. */
  type CppString = s: string | |s| < MAX_SIZE

  const MAX_SIZE: nat := 0x8000_0000_0000_0000

  /** `pat` occurs in `s` starting at index `i`. */
  predicate OccursAt(s: string, pat: string, i: nat) {
    i + |pat| <= |s| && s[i..i + |pat|] == pat
  }

  function FindFrom(s: string, pat: string, i: nat): (r: Option<nat>)
    decreases |s| - i
    ensures r.Some? ==> i <= r.value && OccursAt(s, pat, r.value)
    ensures r.Some? ==> forall j :: i <= j < r.value ==> !OccursAt(s, pat, j)
    ensures r.None? ==> forall j :: i <= j ==> !OccursAt(s, pat, j)
  {
    if i + |pat| > |s| then None
    else if s[i..i + |pat|] == pat then Some(i)
    else FindFrom(s, pat, i + 1)
  }

  /** `std::string::find`: the first index at which `pat` occurs, if any. */
  function Find(s: string, pat: string): (r: Option<nat>)
    ensures r.Some? ==> OccursAt(s, pat, r.value)
    ensures r.Some? ==> forall j :: 0 <= j < r.value ==> !OccursAt(s, pat, j)
    ensures r.None? ==> forall j :: 0 <= j ==> !OccursAt(s, pat, j)
  {
    FindFrom(s, pat, 0)
  }

  /** The `size_t` that `std::string::find` returns: the index, or npos. */
  function FindPos(s: string, pat: string): nat {
    match Find(s, pat)
    case Some(i) => i
    case None => NPOS
  }

  /** `std::string::substr(pos, count)`: throws `std::out_of_range` when `pos` is past the end;
      otherwise at most `count` characters from `pos`. */
  function Substr(s: string, pos: nat, count: nat): (r: Result<string>)
    ensures r.Ok? <==> pos <= |s|
    ensures r.Ok? ==> r.value == s[pos..Min(pos + count, |s|)]
  {
    if pos > |s| then Err(OutOfRange("std::string::substr"))
    else Ok(s[pos..Min(pos + count, |s|)])
  }

  // ---------------------------------------------------------------- atoi

  /** The characters `isspace` accepts in the C locale. */
  predicate IsSpace(c: char) {
    c == ' ' || c == '\t' || c == '\n' || c == '\U{0B}' || c == '\U{0C}' || c == '\r'
  }

  function SkipSpaces(s: string): (t: string)
    ensures |t| <= |s| && t == s[|s| - |t|..]
    ensures t != [] ==> !IsSpace(t[0])
  {
    if s != [] && IsSpace(s[0]) then SkipSpaces(s[1..]) else s
  }

  /** The length of the longest prefix of `s` made of decimal digits. */
  function LeadingDigitCount(s: string): (n: nat)
    ensures n <= |s| && AllDigits(s[..n])
    ensures n < |s| ==> !IsDigit(s[n])
  {
    if s != [] && IsDigit(s[0]) then
      var n := 1 + LeadingDigitCount(s[1..]);
      assert s[..n] == [s[0]] + s[1..][..n - 1];
      n
    else 0
  }

  /** Any digit prefix that ends at a non-digit, or at the end, is the leading digit run. */
  lemma {:induction false} LeadingDigitCountUnique(s: string, n: nat)
    requires n <= |s| && AllDigits(s[..n])
    requires n < |s| ==> !IsDigit(s[n])
    ensures LeadingDigitCount(s) == n
  {
    if n > 0 {
      assert IsDigit(s[..n][0]);
      assert s[1..][..n - 1] == s[..n][1..];
      assert AllDigits(s[..n][1..]);
      LeadingDigitCountUnique(s[1..], n - 1);
    }
  }

  /** The value of the leading digit run of `s`. */
  function LeadingValue(s: string): nat {
    var n := LeadingDigitCount(s);
    DecimalValue(s[..n])
  }

  /** `atoi`: skips white space, takes an optional sign, then the decimal digits that follow
      (none gives 0). */
  function Atoi(s: string): int {
    var t := SkipSpaces(s);
    if t != [] && t[0] == '-' then -(LeadingValue(t[1..]) as int)
    else if t != [] && t[0] == '+' then LeadingValue(t[1..])
    else LeadingValue(t)
  }

  /** `atoi` reads back the decimal text of a number followed by anything that is not a digit. */
  lemma AtoiOfDecimal(n: nat, rest: string)
    requires rest != [] ==> !IsDigit(rest[0])
    ensures Atoi(Decimal(n) + rest) == n
  {
    DecimalRoundTrip(n);
    AtoiOfRun(Decimal(n), rest);
  }

  lemma AtoiOfRun(d: string, rest: string)
    requires |d| > 0 && AllDigits(d)
    requires rest != [] ==> !IsDigit(rest[0])
    ensures Atoi(d + rest) == DecimalValue(d)
  {
    var s := d + rest;
    assert s[0] == d[0];
    assert SkipSpaces(s) == s;
    LeadingValueOfRun(d, rest);
  }

  /** The leading value of a digit run followed by a non-digit is the run's value. */
  lemma LeadingValueOfRun(d: string, rest: string)
    requires AllDigits(d)
    requires rest != [] ==> !IsDigit(rest[0])
    ensures LeadingDigitCount(d + rest) == |d|
    ensures LeadingValue(d + rest) == DecimalValue(d)
  {
    var s := d + rest;
    assert s[..|d|] == d;
    LeadingDigitCountUnique(s, |d|);
  }
}
