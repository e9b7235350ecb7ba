/** The shape tuple of an NPY header: the decimal digit runs between the parentheses,
    read left to right. The C++ finds them with `std::regex_search` for "[0-9][0-9]*" and
    `std::stoi`; here an explicit tokenizer does the same. */
module Shape {
  import opened Bytes
  import opened Results
  import opened Text

  /** The maximal runs of decimal digits of `s`, left to right. */
  function DigitRuns(s: string): (runs: seq<string>)
    ensures forall k :: 0 <= k < |runs| ==> |runs[k]| > 0 && AllDigits(runs[k])
  {
    if s == [] then []
    else if !IsDigit(s[0]) then DigitRuns(s[1..])
    else
      var n := LeadingDigitCount(s);
      [s[..n]] + DigitRuns(s[n..])
  }

  /** `std::stoi` of each run: its value, or `std::out_of_range` for a run above `INT_MAX`. */
  function Dims(runs: seq<string>): (r: Result<seq<nat>>)
    requires forall k :: 0 <= k < |runs| ==> AllDigits(runs[k])
    ensures r.Ok? ==> |r.value| == |runs|
    ensures r.Ok? ==> forall k :: 0 <= k < |runs| ==> r.value[k] == DecimalValue(runs[k]) <= INT_MAX
    ensures r.Err? <==> exists k :: 0 <= k < |runs| && DecimalValue(runs[k]) > INT_MAX
  {
    if runs == [] then Ok([])
    else
      var v := DecimalValue(runs[0]);
      if v > INT_MAX then Err(OutOfRange("std::stoi"))
      else
        var rest :- Dims(runs[1..]);
        assert forall k :: 1 <= k < |runs| ==> runs[k] == runs[1..][k - 1];
        Ok([v] + rest)
  }

  /** The dimensions the header text `s` between the parentheses declares. */
  function ShapeOf(s: string): Result<seq<nat>> {
    Dims(DigitRuns(s))
  }

  /** The shape vector after the C++ loop: cleared, then one `push_back` per digit run
      found by repeated searches in what follows the previous run. */
  method ScanShape(text: string) returns (r: Result<seq<nat>>)
    ensures r == ShapeOf(text)
  {
    var shape: seq<nat> := [];
    var i := 0;
    PrependNothing(ShapeOf(text));
    assert text[i..] == text;
    while i < |text|
      invariant i <= |text|
      invariant ShapeOf(text) == Prepend(shape, ShapeOf(text[i..]))
    {
      if !IsDigit(text[i]) {
        SkipNonDigit(text[i..]);
        assert text[i..][1..] == text[i + 1..];
        i := i + 1;
      } else {
        var j, value := ReadRun(text, i);
        TakeRun(text[i..], j - i);
        if value > INT_MAX {
          assert ShapeOf(text[i..]) == Err(OutOfRange("std::stoi"));
          return Err(OutOfRange("std::stoi"));
        }
        PrependTwice(shape, [value], ShapeOf(text[j..]));
        shape := shape + [value];
        i := j;
      }
    }
    assert text[i..] == [];
    assert shape + [] == shape;
    r := Ok(shape);
  }

  /** The end of the digit run starting at `i`, and the run's value (what `std::stoi` reads). */
  method ReadRun(text: string, i: nat) returns (j: nat, value: nat)
    requires i < |text| && IsDigit(text[i])
    ensures i < j <= |text|
    ensures AllDigits(text[i..j]) && (j < |text| ==> !IsDigit(text[j]))
    ensures value == DecimalValue(text[i..j])
    ensures text[i..][..j - i] == text[i..j] && text[i..][j - i..] == text[j..]
  {
    j, value := i, 0;
    while j < |text| && IsDigit(text[j])
      invariant i <= j <= |text|
      invariant AllDigits(text[i..j])
      invariant value == DecimalValue(text[i..j])
    {
      assert text[i..j + 1][..j - i] == text[i..j];
      value := value * 10 + DigitValue(text[j]);
      j := j + 1;
    }
  }

  lemma PrependNothing(r: Result<seq<nat>>)
    ensures Prepend([], r) == r
  {
    if r.Ok? {
      assert [] + r.value == r.value;
    }
  }

  lemma PrependTwice(a: seq<nat>, b: seq<nat>, r: Result<seq<nat>>)
    ensures Prepend(a, Prepend(b, r)) == Prepend(a + b, r)
  {
    if r.Ok? {
      assert a + (b + r.value) == (a + b) + r.value;
    }
  }

  /** A leading non-digit contributes nothing to the shape. */
  lemma SkipNonDigit(t: string)
    requires t != [] && !IsDigit(t[0])
    ensures ShapeOf(t) == ShapeOf(t[1..])
  {
  }

  /** A leading digit run of length `n` is the first dimension, or the `stoi` failure. */
  lemma TakeRun(t: string, n: nat)
    requires 0 < n <= |t| && AllDigits(t[..n])
    requires n < |t| ==> !IsDigit(t[n])
    ensures ShapeOf(t) == if DecimalValue(t[..n]) > INT_MAX then Err(OutOfRange("std::stoi"))
                          else Prepend([DecimalValue(t[..n])], ShapeOf(t[n..]))
  {
    LeadingDigitCountUnique(t, n);
    var runs := DigitRuns(t);
    assert runs == [t[..n]] + DigitRuns(t[n..]);
    assert runs[1..] == DigitRuns(t[n..]);
  }

  /** The result of parsing what follows, with `dims` found before it. */
  function Prepend(dims: seq<nat>, r: Result<seq<nat>>): Result<seq<nat>> {
    if r.Ok? then Ok(dims + r.value) else r
  }

  // ---------------------------------------------------------------- properties

  /** The digits of `s` in order, everything else dropped. */
  function DigitsOf(s: string): string {
    if s == [] then [] else (if IsDigit(s[0]) then [s[0]] else []) + DigitsOf(s[1..])
  }

  function Concat(runs: seq<string>): string {
    if runs == [] then [] else runs[0] + Concat(runs[1..])
  }

  lemma {:induction false} DigitsOfAllDigits(s: string)
    requires AllDigits(s)
    ensures DigitsOf(s) == s
  {
    if s != [] {
      DigitsOfAllDigits(s[1..]);
    }
  }

  lemma {:induction false} DigitsOfAppend(a: string, b: string)
    ensures DigitsOf(a + b) == DigitsOf(a) + DigitsOf(b)
  {
    if a != [] {
      assert (a + b)[1..] == a[1..] + b;
      DigitsOfAppend(a[1..], b);
    } else {
      assert a + b == b;
    }
  }

  /** No digit is lost or invented: the runs, put back together, are the digits of the text. */
  lemma {:induction false} RunsCoverDigits(s: string)
    ensures Concat(DigitRuns(s)) == DigitsOf(s)
    decreases |s|
  {
    if s != [] {
      if !IsDigit(s[0]) {
        RunsCoverDigits(s[1..]);
      } else {
        var n := LeadingDigitCount(s);
        RunsCoverDigits(s[n..]);
        assert s == s[..n] + s[n..];
        DigitsOfAppend(s[..n], s[n..]);
        DigitsOfAllDigits(s[..n]);
        assert DigitRuns(s)[1..] == DigitRuns(s[n..]);
      }
    }
  }

  /** A run of digits followed by a non-digit (or nothing) is the first run. */
  lemma RunThenRest(d: string, rest: string)
    requires |d| > 0 && AllDigits(d)
    requires rest != [] ==> !IsDigit(rest[0])
    ensures DigitRuns(d + rest) == [d] + DigitRuns(rest)
  {
    var s := d + rest;
    assert s[..|d|] == d && s[|d|..] == rest;
    LeadingDigitCountUnique(s, |d|);
  }

  /** Text without digits in front of `rest` adds no run. */
  lemma {:induction false} NoDigitsThenRest(p: string, rest: string)
    requires forall k :: 0 <= k < |p| ==> !IsDigit(p[k])
    ensures DigitRuns(p + rest) == DigitRuns(rest)
  {
    if p != [] {
      assert (p + rest)[1..] == p[1..] + rest;
      NoDigitsThenRest(p[1..], rest);
    } else {
      assert p + rest == rest;
    }
  }

  /** The text NumPy writes between the parentheses of a shape tuple:
      "" for (), "3," for (3,) and "3, 4" for (3, 4). */
  function TupleBody(dims: seq<nat>): string {
    if dims == [] then ""
    else if |dims| == 1 then Decimal(dims[0]) + ","
    else Joined(dims)
  }

  /** The dimensions in decimal, separated by ", ". */
  function Joined(dims: seq<nat>): string
    requires dims != []
  {
    if |dims| == 1 then Decimal(dims[0]) else Decimal(dims[0]) + ", " + Joined(dims[1..])
  }

  function Decimals(dims: seq<nat>): (texts: seq<string>)
    ensures |texts| == |dims|
    ensures forall k :: 0 <= k < |dims| ==> texts[k] == Decimal(dims[k])
  {
    if dims == [] then [] else [Decimal(dims[0])] + Decimals(dims[1..])
  }

  lemma {:induction false} JoinedRuns(dims: seq<nat>)
    requires dims != []
    ensures DigitRuns(Joined(dims)) == Decimals(dims)
  {
    var d := Decimal(dims[0]);
    DecimalRoundTrip(dims[0]);
    if |dims| == 1 {
      RunThenRest(d, []);
      assert d + [] == d;
    } else {
      JoinedRuns(dims[1..]);
      assert Joined(dims) == d + (", " + Joined(dims[1..]));
      RunThenRest(d, ", " + Joined(dims[1..]));
      NoDigitsThenRest(", ", Joined(dims[1..]));
    }
  }

  lemma TupleBodyRuns(dims: seq<nat>)
    ensures DigitRuns(TupleBody(dims)) == Decimals(dims)
  {
    if |dims| == 1 {
      var d := Decimal(dims[0]);
      DecimalRoundTrip(dims[0]);
      RunThenRest(d, ",");
      NoDigitsThenRest(",", []);
      assert "," + [] == ",";
    } else if dims != [] {
      JoinedRuns(dims);
    }
  }

  lemma {:induction false} DimsOfDecimals(dims: seq<nat>)
    requires forall k :: 0 <= k < |dims| ==> dims[k] <= INT_MAX
    ensures Dims(Decimals(dims)) == Ok(dims)
  {
    if dims != [] {
      DecimalRoundTrip(dims[0]);
      DimsOfDecimals(dims[1..]);
      assert Decimals(dims)[1..] == Decimals(dims[1..]);
      assert [dims[0]] + dims[1..] == dims;
    }
  }

  /** Decoding the tuple NumPy writes gives back the dimensions: a trailing comma after a
      single dimension adds no dimension, and no dimension is lost. */
  lemma ShapeRoundTrip(dims: seq<nat>)
    requires forall k :: 0 <= k < |dims| ==> dims[k] <= INT_MAX
    ensures ShapeOf(TupleBody(dims)) == Ok(dims)
  {
    TupleBodyRuns(dims);
    DimsOfDecimals(dims);
  }

  /** "(3,)" gives [3], "(3, 4)" gives [3, 4] and "()" gives []. */
  lemma ShapeExamples()
    ensures ShapeOf("3,") == Ok([3])
    ensures ShapeOf("3, 4") == Ok([3, 4])
    ensures ShapeOf("") == Ok([])
  {
    ShapeRoundTrip([3]);
    assert TupleBody([3]) == "3,";
    ShapeRoundTrip([3, 4]);
    assert TupleBody([3, 4]) == "3, 4";
  }
}
