/** `string_unit_to_numeric`: a storage size such as `100mb` or ` 2G ` read as a
    64-bit unsigned byte count. The string is trimmed, lower-cased and split into
    its leading decimal digits and a unit suffix; the suffix selects a power of
    1024. Every exception the source throws is an `Err` here. */
module StorageUnit {
  import opened Wrappers
  import opened Text

  /** `std::numeric_limits<uint64_t>::max()`. */
  const MaxU64: nat := 0xFFFF_FFFF_FFFF_FFFF

  datatype ParseError =
    | EmptyInput               // std::invalid_argument: nothing left after trimming
    | NoNumericPart            // std::invalid_argument: no leading digit
    | OutOfRange               // std::out_of_range from std::stoull: the digits exceed 2^64-1
    | UnknownUnit(unit: string)  // std::invalid_argument: the suffix is not in the table
    | Overflow                 // std::overflow_error: digits times multiplier exceed 2^64-1

  /** Removes leading whitespace. */
  function TrimLeft(s: string): (r: string)
    ensures |r| <= |s| && r == s[|s| - |r|..]
    ensures AllSpace(s[..|s| - |r|])
    ensures r == [] || !IsSpace(r[0])
  {
    if s != [] && IsSpace(s[0]) then
      var r := TrimLeft(s[1..]);
      assert s[..|s| - |r|] == [s[0]] + s[1..][..|s[1..]| - |r|];
      r
    else s
  }

  /** Removes trailing whitespace. */
  function TrimRight(s: string): (r: string)
    ensures |r| <= |s| && r == s[..|r|]
    ensures AllSpace(s[|r|..])
    ensures r == [] || !IsSpace(r[|r| - 1])
  {
    if s != [] && IsSpace(s[|s| - 1]) then
      var r := TrimRight(s[..|s| - 1]);
      assert s[|r|..] == s[..|s| - 1][|r|..] + [s[|s| - 1]];
      r
    else s
  }

  /** Removes whitespace at both ends. */
  function Trim(s: string): (r: string)
    ensures r == [] || (!IsSpace(r[0]) && !IsSpace(r[|r| - 1]))
    ensures r == [] <==> AllSpace(s)
  {
    var left := TrimLeft(s);
    assert AllSpace(s) <==> left == [] by {
      if left != [] {
        assert s[|s| - |left|] == left[0];
      }
    }
    TrimRight(left)
  }

  /** The suffix table of the source, every entry a power of 1024. */
  const Multipliers: map<string, nat> := map[
    "b" := 1,
    "k" := 0x400, "kb" := 0x400,
    "m" := 0x10_0000, "mb" := 0x10_0000,
    "g" := 0x4000_0000, "gb" := 0x4000_0000,
    "t" := 0x100_0000_0000, "tb" := 0x100_0000_0000
  ]

  /** The multiplier for a (lower-case) suffix: a table entry, 1 for no suffix,
      and `None` for an unknown unit. */
  function Multiplier(unit: string): (r: Option<nat>)
    ensures r.Some? ==> r.value >= 1
  {
    if unit in Multipliers then Some(Multipliers[unit])
    else if unit == [] then Some(1)
    else None
  }

  function Pow1024(e: nat): nat {
    if e == 0 then 1 else 1024 * Pow1024(e - 1)
  }

  /** The exponent of 1024 each accepted suffix stands for. */
  function Exponent(unit: string): nat {
    if unit in {"k", "kb"} then 1
    else if unit in {"m", "mb"} then 2
    else if unit in {"g", "gb"} then 3
    else if unit in {"t", "tb"} then 4
    else 0
  }

  const Units: set<string> := {"", "b", "k", "kb", "m", "mb", "g", "gb", "t", "tb"}

  /** Exactly the ten suffixes are accepted, and each stands for 1024^e. */
  lemma MultiplierTable(unit: string)
    ensures Multiplier(unit).Some? <==> unit in Units
    ensures unit in Units ==> Multiplier(unit) == Some(Pow1024(Exponent(unit)))
  {
    assert Pow1024(1) == 1024;
    assert Pow1024(2) == 1024 * 1024;
    assert Pow1024(3) == 1024 * 1024 * 1024;
    assert Pow1024(4) == 1024 * 1024 * 1024 * 1024;
  }

  /** The overflow guard `number > max / m` of the source holds exactly when the
      product does not fit: it neither wraps nor rejects a value that fits. */
  lemma GuardIsExact(number: nat, m: nat)
    requires m >= 1
    ensures number > MaxU64 / m <==> number * m > MaxU64
  {
    var q := MaxU64 / m;
    assert MaxU64 == q * m + MaxU64 % m;
    if number > q {
      assert number * m >= (q + 1) * m;
      assert (q + 1) * m == q * m + m;
    } else {
      assert number * m <= q * m;
    }
  }

  /** The multiplication with the overflow check of the source. */
  function Scale(number: nat, m: nat): (r: Result<nat, ParseError>)
    requires number <= MaxU64 && m >= 1
    ensures r.Ok? ==> r.value <= MaxU64
  {
    if m > 1 && number > MaxU64 / m then Err(Overflow)
    else GuardIsExact(number, m); Ok(number * m)
  }

  /** The steps after trimming and lower-casing: split, `stoull`, unit lookup, scale. */
  function ParseLower(lower: string): (r: Result<nat, ParseError>)
    ensures r.Ok? ==> r.value <= MaxU64
    ensures r != Err(EmptyInput)
  {
    var k := LeadingDigits(lower);
    if k == 0 then Err(NoNumericPart)
    else
      var number := DecimalValue(lower[..k]);
      if number > MaxU64 then Err(OutOfRange)
      else
        match Multiplier(lower[k..])
        case None => Err(UnknownUnit(lower[k..]))
        case Some(m) => Scale(number, m)
  }

  function Parse(unit: string): (r: Result<nat, ParseError>)
    ensures r.Ok? ==> r.value <= MaxU64
  {
    var s := Trim(unit);
    if s == [] then Err(EmptyInput) else ParseLower(ToLower(s))
  }

  // ---------------------------------------------------------------------------
  // Whitespace

  lemma {:induction false} TrimLeftSpacePrefix(w: string, s: string)
    requires AllSpace(w)
    ensures TrimLeft(w + s) == TrimLeft(s)
  {
    if w == [] {
      assert w + s == s;
    } else {
      var ws := w + s;
      assert ws[0] == w[0] && IsSpace(ws[0]);
      assert ws[1..] == w[1..] + s;
      assert AllSpace(w[1..]);
      calc {
        TrimLeft(ws);
        TrimLeft(ws[1..]);
        { TrimLeftSpacePrefix(w[1..], s); }
        TrimLeft(s);
      }
    }
  }

  lemma {:induction false} TrimRightSpaceSuffix(s: string, w: string)
    requires AllSpace(w)
    ensures TrimRight(s + w) == TrimRight(s)
  {
    if w == [] {
      assert s + w == s;
    } else {
      var sw := s + w;
      assert sw[|sw| - 1] == w[|w| - 1] && IsSpace(sw[|sw| - 1]);
      assert sw[..|sw| - 1] == s + w[..|w| - 1];
      assert AllSpace(w[..|w| - 1]);
      calc {
        TrimRight(sw);
        TrimRight(sw[..|sw| - 1]);
        { TrimRightSpaceSuffix(s, w[..|w| - 1]); }
        TrimRight(s);
      }
    }
  }

  lemma {:induction false} TrimLeftAllSpace(s: string)
    ensures AllSpace(s) <==> TrimLeft(s) == []
  {
    if s != [] && IsSpace(s[0]) {
      TrimLeftAllSpace(s[1..]);
      assert AllSpace(s[1..]) ==> AllSpace(s);
    }
  }

  lemma {:induction false} TrimLeftKeepsTail(s: string, w: string)
    requires !AllSpace(s)
    ensures TrimLeft(s + w) == TrimLeft(s) + w
  {
    assert s != [];
    if IsSpace(s[0]) {
      assert (s + w)[1..] == s[1..] + w;
      assert !AllSpace(s[1..]);
      TrimLeftKeepsTail(s[1..], w);
    }
  }

  /** Surrounding whitespace is ignored by trimming. */
  lemma TrimSurrounding(w1: string, s: string, w2: string)
    requires AllSpace(w1) && AllSpace(w2)
    ensures Trim(w1 + s + w2) == Trim(s)
  {
    assert w1 + s + w2 == w1 + (s + w2);
    TrimLeftSpacePrefix(w1, s + w2);
    if AllSpace(s) {
      assert AllSpace(s + w2);
      TrimLeftAllSpace(s + w2);
      TrimLeftAllSpace(s);
    } else {
      TrimLeftKeepsTail(s, w2);
      TrimRightSpaceSuffix(TrimLeft(s), w2);
    }
  }

  /** Leading and trailing whitespace does not change the result. */
  lemma ParseIgnoresSurroundingSpace(w1: string, s: string, w2: string)
    requires AllSpace(w1) && AllSpace(w2)
    ensures Parse(w1 + s + w2) == Parse(s)
  {
    TrimSurrounding(w1, s, w2);
  }

  /** An empty or all-whitespace input, and only such an input, is rejected as empty. */
  lemma ParseBlank(s: string)
    ensures Parse(s) == Err(EmptyInput) <==> AllSpace(s)
  {
    if !AllSpace(s) {
      assert Trim(s) != [];
    }
  }

  // ---------------------------------------------------------------------------
  // Case

  lemma {:induction false} TrimLeftLower(s: string)
    ensures ToLower(TrimLeft(s)) == TrimLeft(ToLower(s))
  {
    if s != [] {
      LowerCharKeepsClass(s[0]);
      if IsSpace(s[0]) {
        assert ToLower(s)[1..] == ToLower(s[1..]);
        TrimLeftLower(s[1..]);
      }
    }
  }

  lemma {:induction false} TrimRightLower(s: string)
    ensures ToLower(TrimRight(s)) == TrimRight(ToLower(s))
  {
    if s != [] {
      LowerCharKeepsClass(s[|s| - 1]);
      if IsSpace(s[|s| - 1]) {
        assert ToLower(s)[..|s| - 1] == ToLower(s[..|s| - 1]);
        TrimRightLower(s[..|s| - 1]);
      }
    }
  }

  /** Two inputs that agree up to case have the same result: the whole string is
      lower-cased before it is split. */
  lemma ParseCaseInsensitive(s: string, t: string)
    requires ToLower(s) == ToLower(t)
    ensures Parse(s) == Parse(t)
  {
    TrimLeftLower(s);
    TrimRightLower(TrimLeft(s));
    TrimLeftLower(t);
    TrimRightLower(TrimLeft(t));
    assert ToLower(Trim(s)) == ToLower(Trim(t));
  }

  lemma ParseUpperCase(s: string)
    ensures Parse(ToUpper(s)) == Parse(s)
  {
    ToLowerOfUpper(s);
    ParseCaseInsensitive(ToUpper(s), s);
  }

  // ---------------------------------------------------------------------------
  // Numeric part and unit

  /** The outcome of every non-blank input, stated over the digit part and the
      suffix the source splits its trimmed, lower-cased form into: no digits,
      digits beyond 2^64-1, an unknown suffix, a product beyond 2^64-1, or the
      exact product. */
  lemma LowerOutcome(lower: string, digits: string, suffix: string)
    requires AllDigits(digits) && digits + suffix == lower
    requires suffix == [] || !IsDigit(suffix[0])
    ensures digits == [] ==> ParseLower(lower) == Err(NoNumericPart)
    ensures digits != [] && DecimalValue(digits) > MaxU64 ==> ParseLower(lower) == Err(OutOfRange)
    ensures digits != [] && DecimalValue(digits) <= MaxU64 && Multiplier(suffix).None? ==>
              ParseLower(lower) == Err(UnknownUnit(suffix))
    ensures digits != [] && DecimalValue(digits) <= MaxU64 && Multiplier(suffix).Some? ==>
              var product := DecimalValue(digits) * Multiplier(suffix).value;
              (product > MaxU64 ==> ParseLower(lower) == Err(Overflow)) &&
              (product <= MaxU64 ==> ParseLower(lower) == Ok(product))
  {
    LeadingDigitsOfConcat(digits, suffix);
    assert lower[..|digits|] == digits && lower[|digits|..] == suffix;
    if digits != [] && DecimalValue(digits) <= MaxU64 && Multiplier(suffix).Some? {
      GuardIsExact(DecimalValue(digits), Multiplier(suffix).value);
    }
  }

  /** A non-blank input is decided by its trimmed, lower-cased form. */
  lemma ParseNonBlank(s: string)
    requires !AllSpace(s)
    ensures Parse(s) == ParseLower(ToLower(Trim(s)))
  {
    ParseBlank(s);
  }

  lemma UnitStartsWithLetter(unit: string)
    requires unit in Units
    ensures unit == [] || 'a' <= unit[0] <= 'z'
  {}

  /** A suffix that does not start with a letter names no unit. */
  lemma UnknownUnitWithoutLetter(unit: string)
    requires unit != [] && !('a' <= unit[0] <= 'z')
    ensures Multiplier(unit) == None
  {
    MultiplierTable(unit);
    if unit in Units {
      UnitStartsWithLetter(unit);
    }
  }

  /** A decimal number with one of the ten suffixes is already trimmed and lower-case. */
  lemma RenderedIsNormal(d: string, unit: string)
    requires d != [] && AllDigits(d) && unit in Units
    ensures !AllSpace(d + unit)
    ensures ToLower(Trim(d + unit)) == d + unit
  {
    var s := d + unit;
    assert s[0] == d[0];
    assert !IsSpace(s[|s| - 1]) by {
      if unit == [] { assert s[|s| - 1] == d[|d| - 1]; }
      else { assert s[|s| - 1] == unit[|unit| - 1]; }
    }
    assert TrimLeft(s) == s;
    assert TrimRight(s) == s;
    forall i | 0 <= i < |s| ensures ToLower(s)[i] == s[i] {
      if i < |d| { assert IsDigit(s[i]); } else { assert s[i] == unit[i - |d|]; }
    }
  }

  /** A number written in decimal followed by one of the ten suffixes parses back
      to the number times the suffix's power of 1024, unless it does not fit. */
  lemma ParseRendered(n: nat, unit: string)
    requires unit in Units
    ensures n > MaxU64 ==> Parse(Decimal(n) + unit) == Err(OutOfRange)
    ensures n <= MaxU64 && n * Pow1024(Exponent(unit)) > MaxU64 ==>
              Parse(Decimal(n) + unit) == Err(Overflow)
    ensures n <= MaxU64 && n * Pow1024(Exponent(unit)) <= MaxU64 ==>
              Parse(Decimal(n) + unit) == Ok(n * Pow1024(Exponent(unit)))
  {
    var d := Decimal(n);
    MultiplierTable(unit);
    var m := Pow1024(Exponent(unit));
    assert Multiplier(unit) == Some(m);
    UnitStartsWithLetter(unit);
    RenderedIsNormal(d, unit);
    ParseNonBlank(d + unit);
    DecimalRoundTrip(n);
    LowerOutcome(d + unit, d, unit);
  }

  /** The default `max_filesize` of the configuration. */
  lemma ParseHundredMegabytes()
    ensures Parse("100mb") == Ok(104857600)
  {
    assert Decimal(1) == "1";
    assert Decimal(10) == "10";
    assert Decimal(100) == "100";
    assert "100" + "mb" == "100mb";
    assert Exponent("mb") == 2;
    assert Pow1024(2) == 0x10_0000;
    ParseRendered(100, "mb");
  }

  /** Inputs without a leading digit are rejected as invalid arguments. */
  lemma ParseRejections()
    ensures Parse("mb") == Err(NoNumericPart)
    ensures Parse("-5") == Err(NoNumericPart)
  {
    NoLeadingDigitRejected("mb");
    NoLeadingDigitRejected("-5");
  }

  /** A unit separated from its number by whitespace is unknown: the whole rest,
      whitespace included, is taken as the unit. */
  lemma InnerSpaceRejected(d: string, w: string, u: string)
    requires d != [] && AllDigits(d) && DecimalValue(d) <= MaxU64
    requires w != [] && AllSpace(w)
    requires u != [] && !IsSpace(u[|u| - 1])
    ensures Parse(d + w + u) == Err(UnknownUnit(ToLower(w + u)))
  {
    var s := d + (w + u);
    assert d + w + u == s;
    var suffix := ToLower(w + u);
    assert Parse(s) == ParseLower(d + suffix) by {
      assert s[0] == d[0] && s[|s| - 1] == u[|u| - 1];
      TrimmedIsUnchanged(s);
      ParseNonBlank(s);
      ToLowerConcat(d, w + u);
      ToLowerOfLower(d);
    }
    assert ParseLower(d + suffix) == Err(UnknownUnit(suffix)) by {
      assert suffix[0] == ToLowerChar(w[0]);
      LowerCharKeepsClass(w[0]);
      UnknownUnitWithoutLetter(suffix);
      LowerOutcome(d + suffix, d, suffix);
    }
  }

  /** A string without whitespace at either end is its own trimmed form. */
  lemma TrimmedIsUnchanged(s: string)
    requires s != [] && !IsSpace(s[0]) && !IsSpace(s[|s| - 1])
    ensures !AllSpace(s) && Trim(s) == s
  {}

  /** An input whose first non-blank character is not a digit has no numeric
      part: a sign, a unit alone, or a letter is rejected. */
  lemma NoLeadingDigitRejected(s: string)
    requires s != [] && !IsSpace(s[0]) && !IsDigit(s[0]) && !IsSpace(s[|s| - 1])
    ensures Parse(s) == Err(NoNumericPart)
  {
    TrimmedIsUnchanged(s);
    ParseNonBlank(s);
    var lower := ToLower(s);
    LowerCharKeepsClass(s[0]);
    assert lower[0] == ToLowerChar(s[0]);
    assert [] + lower == lower;
    LowerOutcome(lower, [], lower);
  }

  lemma ParseTwoG()
    ensures Parse("2g") == Ok(0x8000_0000)
  {
    assert Decimal(2) + "g" == "2g";
    assert Exponent("g") == 3;
    assert Pow1024(3) == 0x4000_0000;
    ParseRendered(2, "g");
  }

  /** Surrounding spaces and upper case: ` 2G ` is two gibibytes. */
  lemma ParseSpacedUpperCase()
    ensures Parse(" 2G ") == Ok(0x8000_0000)
  {
    var upper := ToUpper("2g");
    assert upper == "2G" by {
      assert upper[0] == ToUpperChar('2') == '2';
      assert upper[1] == ToUpperChar('g') == 'G';
    }
    assert " 2G " == " " + upper + " ";
    assert AllSpace(" ");
    ParseIgnoresSurroundingSpace(" ", upper, " ");
    ParseUpperCase("2g");
    ParseTwoG();
  }
}
