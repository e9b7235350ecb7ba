/** Bytes, fixed-width unsigned integers, little-endian fields and decimal text. */
module Bytes {

  type byte = b: nat | b < 256

  const TWO_16: nat := 0x1_0000
  const TWO_32: nat := 0x1_0000_0000
  const TWO_64: nat := 0x1_0000_0000_0000_0000
  /** The largest value of a C++ `int`. */
  const INT_MAX: nat := 0x7FFF_FFFF

  /** Conversion to `size_t`: arithmetic modulo 2^64. */
  function SizeT(x: int): (r: nat)
    ensures r < TWO_64
    ensures 0 <= x < TWO_64 ==> r == x
    ensures x < 0 && 0 <= x + TWO_64 ==> r == x + TWO_64
    ensures TWO_64 <= x < 2 * TWO_64 ==> r == x - TWO_64
  {
    x % TWO_64
  }

  /** `static_cast<uint32_t>`: the low 32 bits. */
  function Low32(x: nat): (r: nat)
    ensures r < TWO_32
    ensures x < TWO_32 ==> r == x
  {
    x % TWO_32
  }

  function Min(a: nat, b: nat): nat {
    if a <= b then a else b
  }

  /** 256^n */
  function Pow256(n: nat): (r: nat)
    ensures r > 0
  {
    if n == 0 then 1 else 256 * Pow256(n - 1)
  }

  /** The unsigned value of `bs` read least significant byte first. */
  function LoadLE(bs: seq<byte>): (r: nat)
    ensures r < Pow256(|bs|)
  {
    if bs == [] then 0 else bs[0] + 256 * LoadLE(bs[1..])
  }

  /** The `n` bytes that store `x` least significant byte first. */
  function StoreLE(x: nat, n: nat): (r: seq<byte>)
    requires x < Pow256(n)
    ensures |r| == n
    ensures LoadLE(r) == x
  {
    if n == 0 then []
    else
      assert x / 256 < Pow256(n - 1);
      [(x % 256) as byte] + StoreLE(x / 256, n - 1)
  }

  lemma PowersOf256()
    ensures Pow256(2) == TWO_16 && Pow256(4) == TWO_32 && Pow256(8) == TWO_64
  {
    assert Pow256(4) == 256 * 256 * Pow256(2);
    assert Pow256(8) == 256 * 256 * 256 * 256 * Pow256(4);
  }

  /** A `uint16_t`, `uint32_t` or `uint64_t` as stored on a little-endian host. */
  function LE16(x: nat): (r: seq<byte>)
    requires x < TWO_16
    ensures |r| == 2 && LoadLE(r) == x
    ensures r[0] == x % 256 && r[1] == x / 256
  {
    PowersOf256();
    StoreLE(x, 2)
  }

  function LE32(x: nat): (r: seq<byte>)
    requires x < TWO_32
    ensures |r| == 4 && LoadLE(r) == x
  {
    PowersOf256();
    StoreLE(x, 4)
  }

  function LE64(x: nat): (r: seq<byte>)
    requires x < TWO_64
    ensures |r| == 8 && LoadLE(r) == x
  {
    PowersOf256();
    StoreLE(x, 8)
  }

  /** A little-endian field of `n` bytes at offset `at`. */
  function FieldLE(bs: seq<byte>, at: nat, n: nat): nat
    requires at + n <= |bs|
  {
    LoadLE(bs[at..at + n])
  }

  /** Reading a field of a sequence built by concatenation reads it from the part that holds it. */
  lemma FieldOfConcat(a: seq<byte>, b: seq<byte>, at: nat, n: nat)
    requires at + n <= |b|
    ensures FieldLE(a + b, |a| + at, n) == FieldLE(b, at, n)
  {
    assert (a + b)[|a| + at..|a| + at + n] == b[at..at + n];
  }

  /** Reading a field that lies in the first part of a concatenation reads it from that part. */
  lemma FieldOfPrefix(a: seq<byte>, b: seq<byte>, at: nat, n: nat)
    requires at + n <= |a|
    ensures FieldLE(a + b, at, n) == FieldLE(a, at, n)
  {
    assert (a + b)[at..at + n] == a[at..at + n];
  }

  /** Reading a field of a suffix reads it at the shifted offset of the whole. */
  lemma FieldOfSuffix(s: seq<byte>, k: nat, at: nat, n: nat)
    requires k + at + n <= |s|
    ensures FieldLE(s[k..], at, n) == FieldLE(s, k + at, n)
  {
    assert s[k..][at..at + n] == s[k + at..k + at + n];
  }

  // ---------------------------------------------------------------- decimal text

  predicate IsDigit(c: char) {
    '0' <= c <= '9'
  }

  predicate AllDigits(s: string) {
    forall i :: 0 <= i < |s| ==> IsDigit(s[i])
  }

  function DigitValue(c: char): (d: nat)
    requires IsDigit(c)
    ensures d < 10
  {
    c as int - '0' as int
  }

  function DigitChar(d: nat): (c: char)
    requires d < 10
    ensures IsDigit(c) && DigitValue(c) == d
  {
    ('0' as int + d) as char
  }

  /** The value of a string of decimal digits, most significant first. */
  function DecimalValue(s: string): nat
    requires AllDigits(s)
  {
    if s == [] then 0 else DecimalValue(s[..|s| - 1]) * 10 + DigitValue(s[|s| - 1])
  }

  /** `std::to_string` of a non-negative number: its shortest decimal text. */
  function Decimal(n: nat): (s: string)
    ensures |s| > 0 && AllDigits(s)
  {
    if n < 10 then [DigitChar(n)] else Decimal(n / 10) + [DigitChar(n % 10)]
  }

  /** Decimal text is non-empty, made of digits, and reads back as the number. */
  lemma {:induction false} DecimalRoundTrip(n: nat)
    ensures |Decimal(n)| > 0 && AllDigits(Decimal(n))
    ensures DecimalValue(Decimal(n)) == n
  {
    if n >= 10 {
      DecimalRoundTrip(n / 10);
      var s := Decimal(n);
      assert s[..|s| - 1] == Decimal(n / 10);
    }
  }

  // ---------------------------------------------------------------- bytes as text

  /** The characters of a C++ `std::string` built from raw bytes. */
  function Chars(bs: seq<byte>): (s: string)
    ensures |s| == |bs|
    ensures forall i :: 0 <= i < |bs| ==> s[i] == bs[i] as char
  {
    if bs == [] then [] else [bs[0] as char] + Chars(bs[1..])
  }

  predicate IsByteText(s: string) {
    forall i :: 0 <= i < |s| ==> s[i] as int < 256
  }

  /** The bytes of a text whose characters all fit in a byte. */
  function BytesOf(s: string): (bs: seq<byte>)
    requires IsByteText(s)
    ensures |bs| == |s|
    ensures forall i :: 0 <= i < |s| ==> bs[i] == s[i] as int
  {
    if s == [] then [] else [s[0] as int as byte] + BytesOf(s[1..])
  }

  lemma CharsOfBytesOf(s: string)
    requires IsByteText(s)
    ensures Chars(BytesOf(s)) == s
  {
  }
}
