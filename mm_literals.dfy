// Numeric literals of the memory-map tool: Python's `int(text, base=0)`,
// the `k`/`M` size suffixes, the `align` helper and the `0x{v:08X}`
// rendering used for the generated values.
module MmLiterals {
  import opened Wrappers
  import opened Arith

  // Python's ValueError for a malformed literal, and ZeroDivisionError.
  datatype LiteralError = InvalidLiteral(text: string) | ZeroDivision

  // ---------------------------------------------------------------- digits

  /**
   * The ASCII characters Python's `str.isspace` accepts: space, tab, the
   * line and form feeds, carriage return, and the four separators
   * `\x1c`-`\x1f`.
   */
  predicate IsSpace(c: char) {
    c == ' ' || c == '\t' || c == '\n' || c == '\r' || c == '\U{B}' || c == '\U{C}'
    || ('\U{1C}' <= c <= '\U{1F}')
  }

  /** Python's `str.strip()` on ASCII text: leading and trailing white space removed. */
  function Strip(s: string): (r: string)
    ensures |r| <= |s|
    ensures r != [] ==> !IsSpace(r[0]) && !IsSpace(r[|r| - 1])
    decreases |s|
  {
    if s == [] then s
    else if IsSpace(s[0]) then Strip(s[1..])
    else if IsSpace(s[|s| - 1]) then Strip(s[..|s| - 1])
    else s
  }

  /** The value of a digit character in any base up to 36, or 36 for a non-digit. */
  function DigitValue(c: char): (d: nat)
    ensures d <= 36
  {
    if '0' <= c <= '9' then c as nat - '0' as nat
    else if 'a' <= c <= 'z' then c as nat - 'a' as nat + 10
    else if 'A' <= c <= 'Z' then c as nat - 'A' as nat + 10
    else 36
  }

  /**
   * A run of digits of `base` in which single underscores may separate
   * digits; `lead` admits one underscore before the first digit, as after
   * a base prefix (`0x_1F`).
   */
  predicate DigitRun(d: string, base: nat, lead: bool)
    decreases |d|
  {
    if d == [] then false
    else if d[0] == '_' then lead && DigitRun(d[1..], base, false)
    else DigitValue(d[0]) < base && (|d| == 1 || DigitRun(d[1..], base, true))
  }

  /** The value of a digit run, underscores ignored. */
  function RunValue(d: string, base: nat): nat
    decreases |d|
  {
    if d == [] then 0
    else if d[|d| - 1] == '_' then RunValue(d[..|d| - 1], base)
    else RunValue(d[..|d| - 1], base) * base + DigitValue(d[|d| - 1])
  }

  predicate AllZeroDigits(d: string) {
    forall k :: 0 <= k < |d| ==> d[k] == '0' || d[k] == '_'
  }

  /** Base and digits of an unsigned literal: a `0x`/`0o`/`0b` prefix or decimal. */
  function SplitPrefix(b: string): (r: (nat, string, bool))
    ensures r.0 in {2, 8, 10, 16}
  {
    if |b| >= 2 && b[0] == '0' && (b[1] == 'x' || b[1] == 'X') then (16, b[2..], true)
    else if |b| >= 2 && b[0] == '0' && (b[1] == 'o' || b[1] == 'O') then (8, b[2..], true)
    else if |b| >= 2 && b[0] == '0' && (b[1] == 'b' || b[1] == 'B') then (2, b[2..], true)
    else (10, b, false)
  }

  /** An unsigned literal is well formed: prefixed digits, or decimal without a leading zero unless it is all zeros. */
  predicate UnsignedLiteral(b: string) {
    var (base, d, prefixed) := SplitPrefix(b);
    DigitRun(d, base, prefixed) && (!prefixed && d[0] == '0' ==> AllZeroDigits(d))
  }

  /**
   * `int(text, base=0)`: surrounding white space, an optional sign, then a
   * literal in Python's integer syntax; anything else is a ValueError.
   */
  function ParseInt(text: string): (r: Result<int, LiteralError>)
    ensures r.Err? ==> r.error == InvalidLiteral(text)
    ensures r.Ok? <==> (var t := Strip(text);
                        t != [] && UnsignedLiteral(if t[0] == '-' || t[0] == '+' then t[1..] else t))
  {
    var t := Strip(text);
    if t == [] then Err(InvalidLiteral(text))
    else
      var negative := t[0] == '-';
      var body := if t[0] == '-' || t[0] == '+' then t[1..] else t;
      if !UnsignedLiteral(body) then Err(InvalidLiteral(text))
      else
        var (base, d, _) := SplitPrefix(body);
        var n: int := RunValue(d, base);
        Ok(if negative then -n else n)
  }

  /** `parse_address`. */
  function ParseAddress(text: string): Result<int, LiteralError> {
    ParseInt(text)
  }

  /** The size suffix of a literal: one trailing `k` means 1024, else one trailing `M` means 1024 * 1024. */
  function SizeSuffix(text: string): (r: (string, nat))
    ensures r.1 in {1, 1024, 1024 * 1024}
    ensures r.1 == 1 ==> r.0 == text
    ensures r.1 != 1 ==> text == r.0 + (if r.1 == 1024 then "k" else "M")
  {
    var n := |text|;
    if n > 0 && text[n - 1] == 'k' then (text[..n - 1], 1024)
    else if n > 0 && text[n - 1] == 'M' then (text[..n - 1], 1024 * 1024)
    else (text, 1)
  }

  /** `parse_size`: the literal before the suffix, scaled by the suffix. */
  function ParseSize(text: string): (r: Result<int, LiteralError>)
  {
    var (digits, mul) := SizeSuffix(text);
    match ParseInt(digits)
    case Ok(v) => Ok(v * mul)
    case Err(e) => Err(e)
  }

  // ----------------------------------------------------------------- align

  /** Python's `%`: the remainder takes the sign of the divisor. */
  function PyMod(v: int, a: int): (r: int)
    requires a != 0
    ensures a > 0 ==> 0 <= r < a
    ensures a < 0 ==> a < r <= 0
  {
    if a > 0 then v % a else -((-v) % (-a))
  }

  /** `align(value, alignment)`; a zero alignment is Python's ZeroDivisionError. */
  function Align(v: int, a: int): Result<int, LiteralError> {
    if a == 0 then Err(ZeroDivision)
    else
      var excess := PyMod(v, a);
      if excess != 0 then Ok(v + (a - excess)) else Ok(v)
  }

  /** A positive alignment rounds up to the least multiple that is not below the value. */
  lemma AlignUp(v: int, a: int)
    requires a > 0
    ensures Align(v, a).Ok?
    ensures Align(v, a).value % a == 0
    ensures v <= Align(v, a).value < v + a
  {
    var q, e := v / a, v % a;
    assert v == q * a + e;
    if e != 0 {
      ModUnique(v + (a - e), a, q + 1, 0);
    } else {
      ModUnique(v, a, q, 0);
    }
  }

  /** A negative alignment (which `parse_size` accepts) rounds down instead. */
  lemma AlignDown(v: int, a: int)
    requires a < 0
    ensures Align(v, a).Ok?
    ensures Align(v, a).value % (-a) == 0
    ensures v + a < Align(v, a).value <= v
  {
    var m := -a;
    var q, e := (-v) / m, (-v) % m;
    assert -v == q * m + e;
    assert PyMod(v, a) == -e;
    if e != 0 {
      assert v + (a - (-e)) == -(q + 1) * m;
      ModUnique(v + (a - (-e)), m, -(q + 1), 0);
    } else {
      assert v == (-q) * m;
      ModUnique(v, m, -q, 0);
    }
  }

  lemma AlignZero(v: int)
    ensures Align(v, 0) == Err(ZeroDivision)
  {
  }

  // ------------------------------------------------------- hex rendering

  function HexChar(d: nat): (c: char)
    requires d < 16
    ensures DigitValue(c) == d && c != '_'
  {
    if d < 10 then ('0' as int + d) as char else ('A' as int + d - 10) as char
  }

  /** Upper-case hexadecimal digits of `n` without leading zeros. */
  function HexDigits(n: nat): (s: string)
    ensures |s| > 0
    decreases n
  {
    if n < 16 then [HexChar(n)] else HexDigits(n / 16) + [HexChar(n % 16)]
  }

  function Zeros(k: nat): (s: string)
    ensures |s| == k && forall i :: 0 <= i < k ==> s[i] == '0'
  {
    if k == 0 then "" else "0" + Zeros(k - 1)
  }

  /** Right-justify `s` in a field of `w` characters with zeros. */
  function ZeroPad(s: string, w: nat): string {
    if |s| >= w then s else Zeros(w - |s|) + s
  }

  /**
   * Python's `format(n, "08X")`: upper-case hex, zero padded to eight
   * characters; a negative value keeps its sign inside that width.
   */
  function Hex08(n: int): string {
    if n >= 0 then ZeroPad(HexDigits(n), 8) else "-" + ZeroPad(HexDigits(-n), 7)
  }

  lemma {:induction false} HexDigitsValue(n: nat)
    ensures RunValue(HexDigits(n), 16) == n
    ensures forall k :: 0 <= k < |HexDigits(n)| ==> HexDigits(n)[k] != '_' && DigitValue(HexDigits(n)[k]) < 16
    decreases n
  {
    var s := HexDigits(n);
    if n >= 16 {
      HexDigitsValue(n / 16);
      assert s[..|s| - 1] == HexDigits(n / 16);
    }
  }

  lemma {:induction false} LeadingZerosValue(z: nat, s: string, base: nat)
    requires base > 0
    ensures RunValue(Zeros(z) + s, base) == RunValue(s, base)
    decreases |s|, z
  {
    if s == [] {
      if z > 0 {
        var t := Zeros(z);
        assert t[..|t| - 1] == Zeros(z - 1);
        assert t + s == t;
        LeadingZerosValue(z - 1, [], base);
        assert Zeros(z - 1) + [] == Zeros(z - 1);
      }
    } else {
      var t := Zeros(z) + s;
      assert t[..|t| - 1] == Zeros(z) + s[..|s| - 1];
      LeadingZerosValue(z, s[..|s| - 1], base);
    }
  }

  lemma StripUnspaced(t: string)
    requires t != [] && !IsSpace(t[0]) && !IsSpace(t[|t| - 1])
    ensures Strip(t) == t
  {
  }

  predicate AllSpace(s: string) {
    forall k :: 0 <= k < |s| ==> IsSpace(s[k])
  }

  /** `strip` removes exactly the white space around a text: the text itself is kept whole. */
  lemma {:induction false} StripSurrounded(a: string, t: string, b: string)
    requires AllSpace(a) && AllSpace(b)
    requires t == [] || (!IsSpace(t[0]) && !IsSpace(t[|t| - 1]))
    ensures Strip(a + t + b) == t
    decreases |a| + |b|
  {
    var s := a + t + b;
    if a != [] {
      assert s[0] == a[0];
      assert s[1..] == a[1..] + t + b;
      StripSurrounded(a[1..], t, b);
    } else if t != [] {
      assert s[0] == t[0];
      if b != [] {
        assert s[|s| - 1] == b[|b| - 1];
        assert s[..|s| - 1] == a + t + b[..|b| - 1];
        StripSurrounded(a, t, b[..|b| - 1]);
      } else {
        assert s == t;
      }
    } else if b != [] {
      assert s == b;
      assert s[1..] == a + t + b[1..];
      StripSurrounded(a, t, b[1..]);
    }
  }

  /** A run of plain digits of the base is well formed and needs no underscore handling. */
  lemma {:induction false} PlainRun(d: string, base: nat, lead: bool)
    requires |d| > 0
    requires forall k :: 0 <= k < |d| ==> d[k] != '_' && DigitValue(d[k]) < base
    ensures DigitRun(d, base, lead)
    decreases |d|
  {
    if |d| > 1 {
      PlainRun(d[1..], base, true);
    }
  }

  lemma Hex08Digits(n: nat)
    ensures var d := Hex08(n);
      |d| >= 8 && RunValue(d, 16) == n
      && forall k :: 0 <= k < |d| ==> d[k] != '_' && DigitValue(d[k]) < 16
  {
    var h := HexDigits(n);
    HexDigitsValue(n);
    var d := Hex08(n);
    var z := if |h| >= 8 then 0 else 8 - |h|;
    assert d == Zeros(z) + h;
    LeadingZerosValue(z, h, 16);
    forall k | 0 <= k < |d| ensures d[k] != '_' && DigitValue(d[k]) < 16 {
      if k >= z { assert d[k] == h[k - z]; }
    }
  }

  /** An unsigned, unsigned-looking literal without surrounding space parses to its digits' value. */
  lemma ParseUnsigned(text: string)
    requires text != [] && text[0] != '-' && text[0] != '+'
    requires Strip(text) == text && UnsignedLiteral(text)
    ensures ParseInt(text) == Ok(RunValue(SplitPrefix(text).1, SplitPrefix(text).0))
  {
  }

  /** The rendered value `0x{n:08X}` of a non-negative number reads back as that number. */
  lemma HexRoundTrip(n: nat)
    ensures ParseAddress("0x" + Hex08(n)) == Ok(n)
  {
    var d := Hex08(n);
    Hex08Digits(n);
    var text := "0x" + d;
    assert text[0] == '0' && text[1] == 'x' && text[|text| - 1] == d[|d| - 1];
    StripUnspaced(text);
    assert text[2..] == d;
    assert SplitPrefix(text) == (16, d, true);
    PlainRun(d, 16, true);
    assert UnsignedLiteral(text);
    ParseUnsigned(text);
  }

  /**
   * `parse_size` on a literal followed by `k` or `M`: the literal's value
   * times 1024 or 1024 * 1024, and the literal's error when it is not one.
   */
  lemma SuffixScales(t: string)
    ensures ParseSize(t + "k") == (match ParseInt(t) case Ok(v) => Ok(v * 1024) case Err(e) => Err(e))
    ensures ParseSize(t + "M") == (match ParseInt(t) case Ok(v) => Ok(v * (1024 * 1024)) case Err(e) => Err(e))
  {
    assert (t + "k")[..|t|] == t;
    assert (t + "M")[..|t|] == t;
  }

  /** Text that ends in neither `k` nor `M` is read by `int` as a whole. */
  lemma NoSuffixUnscaled(t: string)
    requires t == [] || (t[|t| - 1] != 'k' && t[|t| - 1] != 'M')
    ensures ParseSize(t) == ParseInt(t)
  {
  }

  /** `G` is not a recognised suffix: `1G` is not a valid size. */
  lemma NoGigaSuffix()
    ensures ParseSize("1G").Err?
  {
    var t := "1G";
    assert Strip(t) == t;
    assert DigitValue('G') == 16;
  }

  /**
   * The sizes the tool's usage text documents: `parse_size` with a `G`
   * suffix for 1024 ** 3 as well.
   */
  function DocumentedSize(text: string): (r: Result<int, LiteralError>)
    ensures ParseSize(text).Ok? ==> r == ParseSize(text)
  {
    var n := |text|;
    if n > 0 && text[n - 1] == 'G' then
      GigaTextRefused(text);
      match ParseInt(text[..n - 1])
      case Ok(v) => Ok(v * (1024 * 1024 * 1024))
      case Err(e) => Err(e)
    else ParseSize(text)
  }

  /** `parse_size` refuses every text ending in `G`: no digit of base 16 or less is a `G`. */
  lemma GigaTextRefused(text: string)
    requires text != [] && text[|text| - 1] == 'G'
    ensures ParseSize(text).Err?
  {
    assert SizeSuffix(text) == (text, 1);
    StripKeepsLast(text);
    var t := Strip(text);
    var body := if t[0] == '-' || t[0] == '+' then t[1..] else t;
    assert body != [] && body[|body| - 1] == 'G';
    var (base, d, prefixed) := SplitPrefix(body);
    assert d == [] || d[|d| - 1] == 'G';
    if DigitRun(d, base, prefixed) {
      DigitRunLast(d, base, prefixed);
    }
  }

  /** Stripping keeps a last character that is not white space. */
  lemma {:induction false} StripKeepsLast(s: string)
    requires s != [] && !IsSpace(s[|s| - 1])
    ensures Strip(s) != [] && Strip(s)[|Strip(s)| - 1] == s[|s| - 1]
    decreases |s|
  {
    if IsSpace(s[0]) {
      StripKeepsLast(s[1..]);
    }
  }

  /** The last character of a digit run is a digit of its base. */
  lemma {:induction false} DigitRunLast(d: string, base: nat, lead: bool)
    requires DigitRun(d, base, lead)
    ensures d != [] && DigitValue(d[|d| - 1]) < base
    decreases |d|
  {
    if d[0] == '_' {
      DigitRunLast(d[1..], base, false);
    } else if |d| > 1 {
      DigitRunLast(d[1..], base, true);
    }
  }

  /** The documented sizes agree with `parse_size` except that a `G` suffix scales by 1024 ** 3. */
  lemma GigaSuffixScales(t: string)
    ensures DocumentedSize(t + "G") == (match ParseInt(t) case Ok(v) => Ok(v * (1024 * 1024 * 1024)) case Err(e) => Err(e))
    ensures t == [] || t[|t| - 1] != 'G' ==> DocumentedSize(t) == ParseSize(t)
  {
    assert (t + "G")[..|t|] == t;
  }

  /** With the documented suffix, `1G` is 1024 ** 3. */
  lemma OneGiga()
    ensures DocumentedSize("1G") == Ok(1024 * 1024 * 1024)
  {
    var one := "1";
    assert one + "G" == "1G";
    GigaSuffixScales(one);
    assert Strip(one) == one;
    assert one[..0] == "";
  }
}
