// The interactive loader: a typed line "name type value" becomes one JSON
// command. The type label decides how the value text is converted: a list
// of integers or of doubles for array types, one integer or one double for
// numeric scalars, and the text itself otherwise.
module LoaderUser {
  import opened Wrappers
  import opened Json
  import opened TypeVerification
  import opened Arith
  import opened CppTypes
  import opened TypeLabel

  // Splitting on spaces.

  /** The index of the first ' ', `None` standing for `std::string::npos`. */
  function FirstSpace(s: string): (r: Option<nat>)
    ensures r.None? <==> forall k :: 0 <= k < |s| ==> s[k] != ' '
    ensures r.Some? ==> r.value < |s| && s[r.value] == ' ' && forall k :: 0 <= k < r.value ==> s[k] != ' '
  {
    if |s| == 0 then None
    else if s[0] == ' ' then Some(0)
    else
      match FirstSpace(s[1..])
      case None => None
      case Some(i) => Some(i + 1)
  }

  /**
   * The items `getline(stream, item, ' ')` yields: the text up to each space,
   * and the rest of the text when it is not empty (a stream that ends right
   * after a space yields nothing more).
   */
  function Tokens(s: string): (r: seq<string>)
    ensures forall k :: 0 <= k < |r| ==> NoSpace(r[k])
    decreases |s|
  {
    if |s| == 0 then []
    else
      match FirstSpace(s)
      case None => [s]
      case Some(i) => [s[..i]] + Tokens(s[i + 1..])
  }

  predicate NoSpace(s: string) {
    forall k :: 0 <= k < |s| ==> s[k] != ' '
  }

  /** The items joined by single spaces. */
  function Join(ts: seq<string>): string {
    if |ts| == 0 then ""
    else if |ts| == 1 then ts[0]
    else ts[0] + " " + Join(ts[1..])
  }

  lemma FirstSpaceAfter(a: string, b: string)
    requires NoSpace(a)
    ensures FirstSpace(a + " " + b) == Some(|a|)
  {
    var s := a + " " + b;
    assert s[|a|] == ' ';
    assert forall k :: 0 <= k < |a| ==> s[k] == a[k];
  }

  /** Splitting undoes joining when no item holds a space and the last one is not empty. */
  lemma {:induction false} TokensOfJoin(ts: seq<string>)
    requires forall k :: 0 <= k < |ts| ==> NoSpace(ts[k])
    requires |ts| > 0 ==> ts[|ts| - 1] != ""
    ensures Tokens(Join(ts)) == ts
  {
    if |ts| == 1 {
      assert FirstSpace(ts[0]).None?;
    } else if |ts| > 1 {
      var s := Join(ts);
      FirstSpaceAfter(ts[0], Join(ts[1..]));
      assert s[..|ts[0]|] == ts[0];
      assert s[|ts[0]| + 1..] == Join(ts[1..]);
      TokensOfJoin(ts[1..]);
    }
  }

  // The numeric conversions of the C++ standard library.

  /** Why `std::stoi` or `std::stod` throws: no number at all, or one out of range. */
  datatype ConversionError = InvalidArgument | OutOfRange

  /** The characters `isspace` accepts in the C locale. */
  predicate IsSpace(c: char) {
    c == ' ' || c == '\t' || c == '\n' || c == '\r' || c == 11 as char || c == 12 as char
  }

  predicate IsDigit(c: char) {
    '0' <= c <= '9'
  }

  /** `s` after its leading white space. */
  function SkipSpaces(s: string): (r: string)
    ensures |r| <= |s| && r == s[|s| - |r|..]
    ensures |r| > 0 ==> !IsSpace(r[0])
  {
    if |s| > 0 && IsSpace(s[0]) then SkipSpaces(s[1..]) else s
  }

  /** The longest prefix of decimal digits. */
  function LeadingDigits(s: string): (r: string)
    ensures |r| <= |s| && r == s[..|r|]
    ensures forall k :: 0 <= k < |r| ==> IsDigit(r[k])
    ensures |r| < |s| ==> !IsDigit(s[|r|])
  {
    if |s| > 0 && IsDigit(s[0]) then [s[0]] + LeadingDigits(s[1..]) else []
  }

  /** A leading sign: the factor it stands for and the text after it. */
  function Sign(s: string): (r: (int, string))
    ensures r.0 == 1 || r.0 == -1
    ensures r.1 == s || (|s| > 0 && r.1 == s[1..] && (s[0] == '+' || s[0] == '-'))
  {
    if |s| > 0 && s[0] == '-' then (-1, s[1..])
    else if |s| > 0 && s[0] == '+' then (1, s[1..])
    else (1, s)
  }

  const IntMin32: int := -0x8000_0000
  const IntMax32: int := 0x7FFF_FFFF

  /**
   * `std::stoi`: white space, an optional sign and at least one digit, the
   * rest ignored; the value must fit a 32-bit `int`.
   */
  function StoI(s: string): (r: Result<int, ConversionError>)
    ensures r.Ok? ==> IntMin32 <= r.value <= IntMax32
  {
    var (sign, rest) := Sign(SkipSpaces(s));
    var digits := LeadingDigits(rest);
    if |digits| == 0 then Err(InvalidArgument)
    else
      var v := sign * DecimalValue(digits);
      if IntMin32 <= v <= IntMax32 then Ok(v) else Err(OutOfRange)
  }

  /** The text `std::to_string` gives an integer. */
  function IntText(n: int): string {
    if n < 0 then "-" + Decimal(-n) else Decimal(n)
  }

  /** What `stoi` reads back is what was written, for every `int`. */
  lemma StoIOfIntText(n: int)
    requires IntMin32 <= n <= IntMax32
    ensures StoI(IntText(n)) == Ok(n)
  {
    var m: nat := if n < 0 then -n else n;
    DecimalRoundTrip(m);
    if n < 0 {
      NegativeDigitsRead(Decimal(m), m);
    } else {
      DigitsRead(Decimal(m), m);
    }
  }

  /** A run of digits whose value fits is read whole. */
  lemma DigitsRead(d: string, n: nat)
    requires |d| > 0 && forall k :: 0 <= k < |d| ==> IsDigit(d[k])
    requires DecimalValue(d) == n <= IntMax32
    ensures StoI(d) == Ok(n)
  {
    LeadingDigitsOfDigits(d);
    assert !IsSpace(d[0]);
    assert Sign(d) == (1, d);
  }

  /** A minus sign and a run of digits whose negated value fits are read whole. */
  lemma NegativeDigitsRead(d: string, n: nat)
    requires |d| > 0 && forall k :: 0 <= k < |d| ==> IsDigit(d[k])
    requires DecimalValue(d) == n <= -IntMin32
    ensures StoI("-" + d) == Ok(-(n as int))
  {
    var t := "-" + d;
    LeadingDigitsOfDigits(d);
    NegativeDigits(d);
    var (sign, rest) := Sign(SkipSpaces(t));
    assert sign == -1 && rest == d;
    assert LeadingDigits(rest) == d;
  }

  /** A minus sign and a run of digits: no white space to skip, and the sign stands for -1. */
  lemma NegativeDigits(d: string)
    requires |d| > 0 && forall k :: 0 <= k < |d| ==> IsDigit(d[k])
    ensures SkipSpaces("-" + d) == "-" + d && Sign("-" + d) == (-1, d)
  {
    assert ("-" + d)[0] == '-';
    assert ("-" + d)[1..] == d;
  }

  lemma {:induction false} LeadingDigitsOfDigits(d: string)
    requires forall k :: 0 <= k < |d| ==> IsDigit(d[k])
    ensures LeadingDigits(d) == d
  {
    if |d| > 0 {
      LeadingDigitsOfDigits(d[1..]);
    }
  }

  function Pow10(n: nat): (p: nat)
    ensures p >= 1
  {
    if n == 0 then 1 else 10 * Pow10(n - 1)
  }

  /** An exponent part: its value and whether it is well formed, so that it is read at all. */
  function Exponent(s: string): (r: (int, bool))
    ensures r.1 ==> |s| >= 2 && (s[0] == 'e' || s[0] == 'E')
    ensures !r.1 ==> r.0 == 0
  {
    if |s| > 0 && (s[0] == 'e' || s[0] == 'E') then
      var (sign, rest) := Sign(s[1..]);
      var digits := LeadingDigits(rest);
      if |digits| == 0 then (0, false) else (sign * DecimalValue(digits), true)
    else (0, false)
  }

  /** `m` scaled by ten to the power `e`. */
  function Scale(m: int, e: int): real {
    if e >= 0 then (m * Pow10(e)) as real else m as real / Pow10(-e) as real
  }

  /** The largest finite `double`, (2^53 - 1) * 2^971, written out. */
  const DoubleMax: real := 179769313486231570814527423731704356798070567525844996598917476803157260780028538760589558632766878171540458953514382464234321326889464182768467546703537516986049910576551282076245490090389328944075868508455133942304583236903222948165808559332123348274797826204144723168738177180919299881250404026184124858368.0

  /** The smallest positive normal `double`, 2^-1022. */
  const DoubleMinNormal: real := 1.0 / 44942328371557897693232629769725618340449424473557664318357520289433168951375240783177119330601884005280028469967848339414697442203604155623211857659868531094441973356216371319075554900311523529863270738021251442209537670585615720368478277635206809290837627671146574559986811484619929076208839082406056034304.0

  /**
   * `std::stod` on decimal text: white space, an optional sign, digits with
   * an optional point (at least one digit in all), and an optional exponent;
   * the rest is ignored. A magnitude beyond the largest `double` overflows,
   * and a non-zero one below the smallest normal `double` underflows: both
   * are out of range.
   */
  function StoD(s: string): (r: Result<real, ConversionError>)
    ensures r.Ok? ==> -DoubleMax <= r.value <= DoubleMax
    ensures r.Ok? ==> r.value == 0.0 || r.value >= DoubleMinNormal || r.value <= -DoubleMinNormal
  {
    match DecimalParts(s)
    case None => Err(InvalidArgument)
    case Some(parts) =>
      var v := PartsValue(parts);
      if FitsDouble(v) then Ok(v) else Err(OutOfRange)
  }

  /** The exact value of what `stod` reads: the signed digits, scaled by the exponent less the fraction digits. */
  function PartsValue(parts: (int, string, nat, string)): real {
    var (sign, digits, fractionLength, after) := parts;
    Scale(sign * DecimalValue(digits), Exponent(after).0 - fractionLength)
  }

  /**
   * The text `stod` reads after white space: the sign, the mantissa's digits,
   * how many of them follow the point, and the text after the mantissa;
   * `None` when there is no digit.
   */
  function DecimalParts(s: string): (r: Option<(int, string, nat, string)>)
    ensures r.Some? ==> (r.value.0 == 1 || r.value.0 == -1) && |r.value.1| > 0
  {
    var (sign, rest) := Sign(SkipSpaces(s));
    match Mantissa(rest)
    case None => None
    case Some((digits, fractionLength, after)) => Some((sign, digits, fractionLength, after))
  }

  /** A value `stod` returns without `out_of_range`: zero, or a normal `double` in magnitude. */
  predicate FitsDouble(v: real) {
    -DoubleMax <= v <= DoubleMax && (v == 0.0 || v >= DoubleMinNormal || v <= -DoubleMinNormal)
  }

  /**
   * Digits with an optional point, at least one digit in all: the digits
   * without the point, how many follow the point, and the text after them.
   */
  function Mantissa(s: string): (r: Option<(string, nat, string)>)
    ensures r.Some? ==> |r.value.0| > 0 && forall k :: 0 <= k < |r.value.0| ==> IsDigit(r.value.0[k])
  {
    var whole := LeadingDigits(s);
    var afterWhole := s[|whole|..];
    var point := |afterWhole| > 0 && afterWhole[0] == '.';
    var fraction := if point then LeadingDigits(afterWhole[1..]) else "";
    var after := if point then afterWhole[1 + |fraction|..] else afterWhole;
    if |whole| + |fraction| == 0 then None else Some((whole + fraction, |fraction|, after))
  }

  /**
   * `stod` reads the text `std::to_string` gives an integer as that integer,
   * or refuses it when its magnitude is beyond the largest `double`.
   */
  lemma StoDOfIntText(n: int)
    ensures StoD(IntText(n)) == if -DoubleMax <= n as real <= DoubleMax then Ok(n as real) else Err(OutOfRange)
  {
    var m: nat := if n < 0 then -n else n;
    var sign := if n < 0 then -1 else 1;
    IntTextParts(n);
    DecimalRoundTrip(m);
    EmptyExponent();
    var parts := (sign, Decimal(m), 0, "");
    StoDOfParts(IntText(n), parts);
    assert PartsValue(parts) == Scale(n, 0);
    ScaleOfInteger(n);
    IntegerFits(n);
  }

  /** An integer as its sign times its magnitude, not scaled. */
  lemma ScaleOfInteger(n: int)
    ensures Scale(n, 0) == n as real
  {
  }

  /** The text of an integer is read as its sign and its digits, with no point and nothing after them. */
  lemma IntTextParts(n: int)
    ensures DecimalParts(IntText(n)) == Some((if n < 0 then -1 else 1, Decimal(if n < 0 then -n else n), 0, ""))
  {
    if n < 0 {
      NegativeDigitsParts(Decimal(-n));
    } else {
      DigitsParts(Decimal(n));
    }
  }

  /** Digits alone are read as a positive sign and those digits, with no point and nothing after them. */
  lemma DigitsParts(d: string)
    requires |d| > 0 && forall k :: 0 <= k < |d| ==> IsDigit(d[k])
    ensures DecimalParts(d) == Some((1, d, 0, ""))
  {
    DigitsMantissa(d);
    assert !IsSpace(d[0]);
    assert Sign(d) == (1, d);
  }

  /** A minus sign and digits are read as a negative sign and those digits, with no point and nothing after them. */
  lemma NegativeDigitsParts(d: string)
    requires |d| > 0 && forall k :: 0 <= k < |d| ==> IsDigit(d[k])
    ensures DecimalParts("-" + d) == Some((-1, d, 0, ""))
  {
    DigitsMantissa(d);
    NegativeDigits(d);
  }

  /** The mantissa of digits alone is those digits, with no point and nothing after them. */
  lemma DigitsMantissa(d: string)
    requires |d| > 0 && forall k :: 0 <= k < |d| ==> IsDigit(d[k])
    ensures Mantissa(d) == Some((d, 0, ""))
  {
    LeadingDigitsOfDigits(d);
    assert d[|d|..] == "" && d + "" == d;
  }

  /** No exponent part: the exponent is zero. */
  lemma EmptyExponent()
    ensures Exponent("") == (0, false)
  {
  }

  /** An integer is zero or at least one in magnitude, so it fits iff it is within the largest `double`. */
  lemma IntegerFits(n: int)
    ensures FitsDouble(n as real) <==> -DoubleMax <= n as real <= DoubleMax
  {
    assert 1.0 >= DoubleMinNormal;
  }

  /** A value of at least zero fits iff it is within the largest `double` and zero or normal. */
  lemma NonNegativeFits(v: real)
    requires v >= 0.0
    ensures FitsDouble(v) <==> v <= DoubleMax && (v == 0.0 || v >= DoubleMinNormal)
  {
  }

  /**
   * `stod` reads digits, a point and digits as their exact decimal value,
   * or refuses it as out of range.
   */
  lemma StoDOfPointText(whole: string, fraction: string)
    requires |whole| > 0 && forall k :: 0 <= k < |whole| ==> IsDigit(whole[k])
    requires forall k :: 0 <= k < |fraction| ==> IsDigit(fraction[k])
    ensures var v := DecimalValue(whole + fraction) as real / Pow10(|fraction|) as real;
      StoD(whole + "." + fraction) == if v <= DoubleMax && (v == 0.0 || v >= DoubleMinNormal) then Ok(v) else Err(OutOfRange)
  {
    var digits := whole + fraction;
    var m := DecimalValue(digits);
    var fractionLength: nat := |fraction|;
    var v := m as real / Pow10(fractionLength) as real;
    PointTextParts(whole, fraction);
    assert DecimalParts(whole + "." + fraction) == Some((1, digits, fractionLength, ""));
    EmptyExponent();
    ScaleDown(m, fractionLength);
    var parts := (1, digits, fractionLength, "");
    StoDOfParts(whole + "." + fraction, parts);
    assert PartsValue(parts) == Scale(m, -(fractionLength as int));
    DecimalValueOfDigits(digits);
    QuotientNonNegative(m, fractionLength);
    NonNegativeFits(v);
  }

  /** Digits over a power of ten are at least zero. */
  lemma QuotientNonNegative(m: int, k: nat)
    requires m >= 0
    ensures m as real / Pow10(k) as real >= 0.0
  {
  }

  /** Digits, a point and digits are read as a positive sign, all the digits and nothing after them. */
  lemma PointTextParts(whole: string, fraction: string)
    requires |whole| > 0 && forall k :: 0 <= k < |whole| ==> IsDigit(whole[k])
    requires forall k :: 0 <= k < |fraction| ==> IsDigit(fraction[k])
    ensures var r := DecimalParts(whole + "." + fraction);
      r.Some? && r.value.0 == 1 && r.value.1 == whole + fraction && r.value.2 == |fraction| && r.value.3 == ""
  {
    var t := whole + "." + fraction;
    MantissaOfPointText(whole, fraction);
    assert IsDigit(t[0]);
    assert Sign(t) == (1, t);
  }

  /** How `StoD` ends once the text is read as a sign, a mantissa and what follows it. */
  lemma StoDOfParts(s: string, parts: (int, string, nat, string))
    requires DecimalParts(s) == Some(parts)
    ensures StoD(s) == if FitsDouble(PartsValue(parts)) then Ok(PartsValue(parts)) else Err(OutOfRange)
  {
  }

  /** Scaling down by ten to the power `k` divides by it. */
  lemma ScaleDown(m: int, k: nat)
    ensures Scale(m, -(k as int)) == m as real / Pow10(k) as real
  {
    if k == 0 {
      assert Pow10(0) == 1;
    }
  }

  /** Digits, a point and digits: the mantissa is all the digits, with nothing after them. */
  lemma MantissaOfPointText(whole: string, fraction: string)
    requires |whole| > 0 && forall k :: 0 <= k < |whole| ==> IsDigit(whole[k])
    requires forall k :: 0 <= k < |fraction| ==> IsDigit(fraction[k])
    ensures Mantissa(whole + "." + fraction) == Some((whole + fraction, |fraction|, ""))
  {
    var t := whole + "." + fraction;
    var tail := "." + fraction;
    assert t == whole + tail;
    LeadingDigitsStop(whole, tail);
    LeadingDigitsOfDigits(fraction);
    assert t[|whole|..] == tail;
    assert tail[1..] == fraction;
    assert tail[1 + |fraction|..] == "";
  }

  /** Leading digits stop at the first character that is not a digit. */
  lemma {:induction false} LeadingDigitsStop(d: string, rest: string)
    requires forall k :: 0 <= k < |d| ==> IsDigit(d[k])
    requires |rest| > 0 && !IsDigit(rest[0])
    ensures LeadingDigits(d + rest) == d
  {
    if |d| > 0 {
      assert (d + rest)[1..] == d[1..] + rest;
      LeadingDigitsStop(d[1..], rest);
    }
  }

  /** Digits have a value of at least zero. */
  lemma {:induction false} DecimalValueOfDigits(d: string)
    requires forall k :: 0 <= k < |d| ==> IsDigit(d[k])
    ensures DecimalValue(d) >= 0
  {
    if |d| > 0 {
      DecimalValueOfDigits(d[..|d| - 1]);
    }
  }

  // The array conversions.

  /** Every item through `convert`; the first exception propagates. */
  function AllItems<T>(ts: seq<string>, convert: string -> Result<T, ConversionError>): (r: Result<seq<T>, ConversionError>)
    ensures r.Ok? ==> |r.value| == |ts| && forall k :: 0 <= k < |ts| ==> convert(ts[k]) == Ok(r.value[k])
    ensures r.Err? <==> exists k :: 0 <= k < |ts| && convert(ts[k]).Err?
    ensures r.Err? ==> exists k :: 0 <= k < |ts| && convert(ts[k]) == Err(r.error) && forall i :: 0 <= i < k ==> convert(ts[i]).Ok?
  {
    if |ts| == 0 then Ok([])
    else
      var last := convert(ts[|ts| - 1]);
      var front := ts[..|ts| - 1];
      assert forall k :: 0 <= k < |ts| - 1 ==> front[k] == ts[k];
      match AllItems(front, convert)
      case Err(e) => Err(e)
      case Ok(before) => if last.Err? then Err(last.error) else Ok(before + [last.value])
  }

  /**
   * `processIntArray`: the loop over the space-separated items. Only
   * `std::bad_cast` is caught, which `stoi` never throws, so the first item
   * that is not a number, or is out of range, ends the conversion.
   */
  method ProcessIntArray(value: string) returns (r: Result<seq<int>, ConversionError>)
    ensures r == AllItems(Tokens(value), StoI)
  {
    var ts := Tokens(value);
    var items: seq<int> := [];
    for i := 0 to |ts|
      invariant AllItems(ts[..i], StoI) == Ok(items)
    {
      var item := StoI(ts[i]);
      ItemStep(ts, StoI, i);
      if item.Err? {
        FailureSticks(ts, StoI, i + 1);
        return Err(item.error);
      }
      items := items + [item.value];
    }
    assert ts[..|ts|] == ts;
    return Ok(items);
  }

  /** `processDoubleArray`: the same loop through `stod`. */
  method ProcessDoubleArray(value: string) returns (r: Result<seq<real>, ConversionError>)
    ensures r == AllItems(Tokens(value), StoD)
  {
    var ts := Tokens(value);
    var items: seq<real> := [];
    for i := 0 to |ts|
      invariant AllItems(ts[..i], StoD) == Ok(items)
    {
      var item := StoD(ts[i]);
      ItemStep(ts, StoD, i);
      if item.Err? {
        FailureSticks(ts, StoD, i + 1);
        return Err(item.error);
      }
      items := items + [item.value];
    }
    assert ts[..|ts|] == ts;
    return Ok(items);
  }

  /** One more item: its conversion is appended, or its failure is the result. */
  lemma ItemStep<T>(ts: seq<string>, convert: string -> Result<T, ConversionError>, i: nat)
    requires i < |ts| && AllItems(ts[..i], convert).Ok?
    ensures convert(ts[i]).Ok? ==> AllItems(ts[..i + 1], convert) == Ok(AllItems(ts[..i], convert).value + [convert(ts[i]).value])
    ensures convert(ts[i]).Err? ==> AllItems(ts[..i + 1], convert) == Err(convert(ts[i]).error)
  {
    assert ts[..i + 1][..i] == ts[..i];
  }

  /** The first failing item decides the error, whatever follows. */
  lemma {:induction false} FailureSticks<T>(ts: seq<string>, convert: string -> Result<T, ConversionError>, n: nat)
    requires n <= |ts| && AllItems(ts[..n], convert).Err?
    ensures AllItems(ts, convert) == AllItems(ts[..n], convert)
    decreases |ts| - n
  {
    if n < |ts| {
      assert ts[..n + 1][..n] == ts[..n];
      FailureSticks(ts, convert, n + 1);
    } else {
      assert ts[..n] == ts;
    }
  }

  // The command.

  /** `std::tolower` in the C locale: only 'A' to 'Z' change. */
  function ToLower(s: string): (r: string)
    ensures |r| == |s|
    ensures forall k :: 0 <= k < |s| ==> r[k] == if 'A' <= s[k] <= 'Z' then (s[k] as int + 32) as char else s[k]
  {
    if |s| == 0 then [] else [if 'A' <= s[0] <= 'Z' then (s[0] as int + 32) as char else s[0]] + ToLower(s[1..])
  }

  /** `s.find(p) != std::string::npos`. */
  predicate Has(s: string, p: string) {
    |s| >= |p| && (s[..|p|] == p || Has(s[1..], p))
  }

  function Ints(vs: seq<int>): (r: seq<Json>)
    ensures |r| == |vs| && forall k :: 0 <= k < |vs| ==> r[k] == NumberInteger(vs[k])
  {
    seq(|vs|, k requires 0 <= k < |vs| => NumberInteger(vs[k]))
  }

  function Doubles(vs: seq<real>): (r: seq<Json>)
    ensures |r| == |vs| && forall k :: 0 <= k < |vs| ==> r[k] == NumberFloat(vs[k])
  {
    seq(|vs|, k requires 0 <= k < |vs| => NumberFloat(vs[k]))
  }

  /** The command object: the name, and the value when there is one (keys in the library's order). */
  function CommandObject(name: string, value: Option<Json>): Json {
    if value.Some? then Object([("name", String(name)), ("value", value.value)])
    else Object([("name", String(name))])
  }

  /**
   * `prepareCommand` as written: an array type containing "int" takes a list
   * of integers, one containing "double" a list of doubles, and any other
   * array type no value at all; a scalar type containing "int" takes `stoi`,
   * one containing "float" or "double" takes `stod`, and any other type
   * the text itself. A conversion that throws is not caught.
   */
  function PrepareCommandAsWritten(name: string, ty: string, value: string): (r: Result<Json, ConversionError>) {
    var lower := ToLower(ty);
    if Has(lower, "array") then
      if Has(lower, "int") then IntArrayCommand(name, value)
      else if Has(lower, "double") then DoubleArrayCommand(name, value)
      else Ok(CommandObject(name, None))
    else ScalarCommand(name, lower, value)
  }

  /**
   * `prepareCommand` as evidently intended: an array type is recognised as
   * floating point by "float" as well as "double", as the scalar branch
   * does, so the type labels "ArrayFloat32" and "ArrayFloat64" take a list of
   * doubles.
   */
  function PrepareCommand(name: string, ty: string, value: string): (r: Result<Json, ConversionError>) {
    var lower := ToLower(ty);
    if Has(lower, "array") then
      if Has(lower, "int") then IntArrayCommand(name, value)
      else if Has(lower, "float") || Has(lower, "double") then DoubleArrayCommand(name, value)
      else Ok(CommandObject(name, None))
    else ScalarCommand(name, lower, value)
  }

  function IntArrayCommand(name: string, value: string): Result<Json, ConversionError> {
    match AllItems(Tokens(value), StoI)
    case Err(e) => Err(e)
    case Ok(vs) => Ok(CommandObject(name, Some(Array(Ints(vs)))))
  }

  function DoubleArrayCommand(name: string, value: string): Result<Json, ConversionError> {
    match AllItems(Tokens(value), StoD)
    case Err(e) => Err(e)
    case Ok(vs) => Ok(CommandObject(name, Some(Array(Doubles(vs)))))
  }

  /** The scalar branches, shared by both versions of the command. */
  function ScalarCommand(name: string, lower: string, value: string): Result<Json, ConversionError> {
    if Has(lower, "int") then
      match StoI(value)
      case Err(e) => Err(e)
      case Ok(v) => Ok(CommandObject(name, Some(NumberInteger(v))))
    else if Has(lower, "float") || Has(lower, "double") then
      match StoD(value)
      case Err(e) => Err(e)
      case Ok(v) => Ok(CommandObject(name, Some(NumberFloat(v))))
    else Ok(CommandObject(name, Some(String(value))))
  }

  lemma CommandObjectFields(name: string, value: Option<Json>)
    ensures Get(CommandObject(name, value), "name") == Some(String(name))
    ensures Get(CommandObject(name, value), "value") == value
  {
    if value.Some? {
      assert CommandObject(name, value).fields[1..][0] == ("value", value.value);
    }
  }

  /**
   * Every command carries the name; a scalar integer type carries what
   * `stoi` read, a scalar floating-point type what `stod` read, and any other
   * scalar type the text; a conversion that throws yields no command.
   */
  lemma ScalarCommands(name: string, ty: string, value: string)
    requires !Has(ToLower(ty), "array")
    ensures var r := PrepareCommand(name, ty, value);
      && (r.Ok? ==> Get(r.value, "name") == Some(String(name)))
      && (Has(ToLower(ty), "int") ==>
            (r.Ok? <==> StoI(value).Ok?) && (r.Ok? ==> Get(r.value, "value") == Some(NumberInteger(StoI(value).value))))
      && (!Has(ToLower(ty), "int") && (Has(ToLower(ty), "float") || Has(ToLower(ty), "double")) ==>
            (r.Ok? <==> StoD(value).Ok?) && (r.Ok? ==> Get(r.value, "value") == Some(NumberFloat(StoD(value).value))))
      && (!Has(ToLower(ty), "int") && !Has(ToLower(ty), "float") && !Has(ToLower(ty), "double") ==>
            r == Ok(CommandObject(name, Some(String(value)))))
  {
    var lower := ToLower(ty);
    if Has(lower, "int") {
      if StoI(value).Ok? {
        CommandObjectFields(name, Some(NumberInteger(StoI(value).value)));
      }
    } else if Has(lower, "float") || Has(lower, "double") {
      if StoD(value).Ok? {
        CommandObjectFields(name, Some(NumberFloat(StoD(value).value)));
      }
    }
  }

  /** An integer array type carries every item as read by `stoi`, or no command when one throws. */
  lemma IntArrayCommands(name: string, ty: string, value: string)
    requires Has(ToLower(ty), "array") && Has(ToLower(ty), "int")
    ensures var r := PrepareCommand(name, ty, value);
      var items := AllItems(Tokens(value), StoI);
      && (r.Ok? <==> items.Ok?)
      && (r.Ok? ==> Get(r.value, "name") == Some(String(name)) && Get(r.value, "value") == Some(Array(Ints(items.value))))
  {
    var items := AllItems(Tokens(value), StoI);
    if items.Ok? {
      CommandObjectFields(name, Some(Array(Ints(items.value))));
    }
  }

  /** A floating-point array type carries every item as read by `stod`, or no command when one throws. */
  lemma DoubleArrayCommands(name: string, ty: string, value: string)
    requires Has(ToLower(ty), "array") && !Has(ToLower(ty), "int")
    requires Has(ToLower(ty), "float") || Has(ToLower(ty), "double")
    ensures var r := PrepareCommand(name, ty, value);
      var items := AllItems(Tokens(value), StoD);
      && (r.Ok? <==> items.Ok?)
      && (r.Ok? ==> Get(r.value, "name") == Some(String(name)) && Get(r.value, "value") == Some(Array(Doubles(items.value))))
  {
    var items := AllItems(Tokens(value), StoD);
    if items.Ok? {
      CommandObjectFields(name, Some(Array(Doubles(items.value))));
    }
  }

  /** Text that holds `p` holds its first character. */
  lemma {:induction false} HasFirst(s: string, p: string)
    requires |p| > 0 && Has(s, p)
    ensures exists k :: 0 <= k < |s| && s[k] == p[0]
  {
    if s[..|p|] == p {
      assert s[0] == p[0];
    } else {
      HasFirst(s[1..], p);
      var k :| 0 <= k < |s[1..]| && s[1..][k] == p[0];
      assert s[k + 1] == p[0];
    }
  }

  /** Text holds whatever a suffix of it holds. */
  lemma {:induction false} HasLater(s: string, p: string, i: nat)
    requires i <= |s| && Has(s[i..], p)
    ensures Has(s, p)
  {
    if i > 0 {
      assert s[1..][i - 1..] == s[i..];
      HasLater(s[1..], p, i - 1);
    }
  }

  /** Text without the first character of `p` does not hold `p`. */
  lemma NotHas(s: string, p: string)
    requires |p| > 0 && forall k :: 0 <= k < |s| ==> s[k] != p[0]
    ensures !Has(s, p)
  {
    if Has(s, p) {
      HasFirst(s, p);
    }
  }

  /** Lower-casing works character by character. */
  lemma {:induction false} ToLowerAppend(a: string, b: string)
    ensures ToLower(a + b) == ToLower(a) + ToLower(b)
  {
    if |a| > 0 {
      assert (a + b)[1..] == a[1..] + b;
      ToLowerAppend(a[1..], b);
    } else {
      assert a + b == b;
    }
  }

  /** The label of a `double` array, "ArrayFloat64", lower-cased. */
  lemma Float64ArrayLabelLowered()
    ensures ToLower(ArrayPrefix + Float64Label) == "array" + "float64"
  {
    ArrayPrefixLowered();
    Float64LabelLowered();
    ToLowerAppend(ArrayPrefix, Float64Label);
  }

  lemma ArrayPrefixLowered()
    ensures ToLower(ArrayPrefix) == "array"
  {
  }

  lemma Float64LabelLowered()
    ensures ToLower(Float64Label) == "float64"
  {
  }

  /** That lower-cased label names an array and floating point, but holds neither "int" nor "double". */
  lemma Float64ArrayWords()
    ensures Has("array" + "float64", "array") && Has("array" + "float64", "float")
    ensures !Has("array" + "float64", "int") && !Has("array" + "float64", "double")
  {
    var s := "array" + "float64";
    assert s[..5] == "array";
    assert s[5..][..5] == "float";
    HasLater(s, "float", 5);
    NotHas(s, "int");
    NotHas(s, "double");
  }

  /** As written, a `double` array parameter is sent a command without a value, whatever was typed. */
  lemma Float64ArrayUnsetAsWritten(name: string, value: string)
    ensures PrepareCommandAsWritten(name, ArrayPrefix + Float64Label, value) == Ok(CommandObject(name, None))
    ensures !Contains(CommandObject(name, None), "value")
  {
    Float64ArrayLabelLowered();
    Float64ArrayWords();
    CommandObjectFields(name, None);
  }

  /** As intended, the same line carries the typed list of doubles. */
  lemma Float64ArraySet(name: string, value: string)
    ensures PrepareCommand(name, ArrayPrefix + Float64Label, value) == DoubleArrayCommand(name, value)
    ensures AllItems(Tokens(value), StoD).Ok? ==>
      Get(PrepareCommand(name, ArrayPrefix + Float64Label, value).value, "value") == Some(Array(Doubles(AllItems(Tokens(value), StoD).value)))
  {
    Float64ArrayLabelLowered();
    Float64ArrayWords();
    DoubleArrayCommands(name, ArrayPrefix + Float64Label, value);
  }

  // The command line.

  /** `s.substr(0, s.find_first_of(' '))`: all of `s` without a space. */
  function BeforeSpace(s: string): string {
    match FirstSpace(s)
    case None => s
    case Some(i) => s[..i]
  }

  /** `s.substr(s.find_first_of(' ') + 1)`: `npos + 1` wraps to 0, so all of `s` without a space. */
  function AfterSpace(s: string): string {
    match FirstSpace(s)
    case None => s
    case Some(i) => s[i + 1..]
  }

  /** The input line split into name, type and value, as the tool's main loop does. */
  function SplitLine(line: string): (r: (string, string, string))
    ensures NoSpace(r.0) && NoSpace(r.1)
  {
    var name := BeforeSpace(line);
    var rest := AfterSpace(line);
    (name, BeforeSpace(rest), AfterSpace(rest))
  }

  lemma SplitAtSpace(a: string, b: string)
    requires NoSpace(a)
    ensures BeforeSpace(a + " " + b) == a && AfterSpace(a + " " + b) == b
  {
    FirstSpaceAfter(a, b);
    assert (a + " " + b)[..|a|] == a;
    assert (a + " " + b)[|a| + 1..] == b;
  }

  /** A line "name type value" gives back its three parts; the value may hold spaces. */
  lemma SplitLineOfParts(name: string, ty: string, value: string)
    requires NoSpace(name) && NoSpace(ty)
    ensures SplitLine(name + " " + ty + " " + value) == (name, ty, value)
  {
    assert name + " " + ty + " " + value == name + " " + (ty + " " + value);
    SplitAtSpace(name, ty + " " + value);
    SplitAtSpace(ty, value);
  }

  /** A line without a space is the name, the type and the value at once. */
  lemma SplitLineWithoutSpace(line: string)
    requires NoSpace(line)
    ensures SplitLine(line) == (line, line, line)
  {
  }
}
