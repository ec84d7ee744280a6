/** JavaScript numbers as the formatter meets them, and the conversions the
    formatter and the settings parser call: String(x), parseInt, parseFloat,
    the string-to-number conversion behind `x >= 0`, ToUint32 and ToUint16,
    Number.prototype.toString(radix), toFixed, toExponential and toPrecision.

    A finite number is an exact real. Only integral values are rendered;
    rendering a fractional value stops with `NotModelled`. */
module JsNumbers {
  import opened Wrappers
  import opened Errors
  import opened Strings

  datatype Number = Finite(r: real) | NaN | Infinity(negative: bool)

  // ---------------------------------------------------------------------
  // Digits

  predicate IsDigit(c: char) {
    '0' <= c <= '9'
  }

  /** The value of `c` as a digit in radices up to 36 (letters in either
      case count from 10); 36 for a character that is no digit at all. */
  function DigitOf(c: char): (d: nat)
    ensures d <= 36
    ensures d < 10 <==> IsDigit(c)
  {
    if '0' <= c <= '9' then c as int - '0' as int
    else if 'a' <= c <= 'z' then c as int - 'a' as int + 10
    else if 'A' <= c <= 'Z' then c as int - 'A' as int + 10
    else 36
  }

  /** The lower-case digit for `d`, as Number.prototype.toString writes it. */
  function DigitChar(d: nat): (c: char)
    requires d < 36
    ensures DigitOf(c) == d
  {
    if d < 10 then ('0' as int + d) as char else ('a' as int + d - 10) as char
  }

  predicate AllDigits(s: string, radix: nat) {
    forall i :: 0 <= i < |s| ==> DigitOf(s[i]) < radix
  }

  lemma DivFacts(n: nat, radix: nat)
    requires 2 <= radix <= n
    ensures 1 <= n / radix < n && n % radix < radix
    ensures n == n / radix * radix + n % radix
  {
  }

  /** The digits of `n` in `radix`, most significant first, no leading zero. */
  function Digits(n: nat, radix: nat): (s: string)
    requires 2 <= radix <= 36
    ensures |s| >= 1 && AllDigits(s, radix)
    ensures n > 0 ==> s[0] != '0'
    ensures n == 0 ==> s == "0"
    decreases n
  {
    if n < radix then [DigitChar(n)]
    else
      DivFacts(n, radix);
      var p := Digits(n / radix, radix);
      var c := DigitChar(n % radix);
      assert AllDigits(p + [c], radix) by {
        forall i | 0 <= i < |p| + 1 ensures DigitOf((p + [c])[i]) < radix {
          if i < |p| { assert (p + [c])[i] == p[i]; }
        }
      }
      p + [c]
  }

  /** The value of a digit string in `radix`. */
  function ValueOf(s: string, radix: nat): nat
    requires AllDigits(s, radix)
    decreases |s|
  {
    if s == [] then 0 else ValueOf(s[..|s| - 1], radix) * radix + DigitOf(s[|s| - 1])
  }

  lemma {:induction false} DigitsRoundTrip(n: nat, radix: nat)
    requires 2 <= radix <= 36
    ensures ValueOf(Digits(n, radix), radix) == n
  {
    if n >= radix {
      DivFacts(n, radix);
      var s := Digits(n, radix);
      assert s[..|s| - 1] == Digits(n / radix, radix);
      assert DigitOf(s[|s| - 1]) == n % radix;
      DigitsRoundTrip(n / radix, radix);
    }
  }

  function Pow10(k: nat): (p: nat)
    ensures p >= 1
  {
    if k == 0 then 1 else 10 * Pow10(k - 1)
  }

  /** 10^21, from which on numbers are written in exponent notation. */
  const PlainLimit: nat := 1_000_000_000_000_000_000_000

  lemma PlainLimitIsPow10()
    ensures Pow10(21) == PlainLimit
  {
    assert Pow10(7) == 10_000_000;
    assert Pow10(14) == 100_000_000_000_000;
  }

  lemma {:induction false} DigitsLength(n: nat, k: nat)
    requires n < Pow10(k)
    ensures |Digits(n, 10)| <= k || (n == 0 && k == 0)
  {
    if n >= 10 {
      assert k >= 1;
      DigitsLength(n / 10, k - 1);
    }
  }

  /** The end of the longest run of `radix` digits that starts at `i`. */
  function RunEnd(s: string, i: nat, radix: nat): (j: nat)
    requires i <= |s|
    ensures i <= j <= |s|
    ensures AllDigits(s[i..j], radix)
    ensures j < |s| ==> DigitOf(s[j]) >= radix
    decreases |s| - i
  {
    if i < |s| && DigitOf(s[i]) < radix then RunEnd(s, i + 1, radix) else i
  }

  lemma {:induction false} RunEndAll(s: string, i: nat, radix: nat)
    requires i <= |s| && AllDigits(s[i..], radix)
    ensures RunEnd(s, i, radix) == |s|
    decreases |s| - i
  {
    if i < |s| {
      assert s[i..][0] == s[i];
      assert s[i + 1..] == s[i..][1..];
      RunEndAll(s, i + 1, radix);
    }
  }

  /** `s` without its trailing zeros. */
  function StripTrailingZeros(s: string): (r: string)
    ensures |r| <= |s| && r == s[..|r|]
    ensures |s| > 0 && s[0] != '0' ==> |r| >= 1
    decreases |s|
  {
    if s != [] && s[|s| - 1] == '0' then StripTrailingZeros(s[..|s| - 1]) else s
  }

  // ---------------------------------------------------------------------
  // Integral reals

  predicate IsIntegral(r: real) {
    r.Floor as real == r
  }

  function Abs(i: int): nat {
    if i < 0 then -i else i
  }

  /** Rounds toward zero, as ToIntegerOrInfinity does. */
  function Trunc(r: real): (t: int)
    ensures r >= 0.0 ==> 0 <= t && t as real <= r < t as real + 1.0
    ensures r < 0.0 ==> t <= 0 && t as real - 1.0 < r <= t as real
  {
    if r >= 0.0 then r.Floor else -((-r).Floor)
  }

  // ---------------------------------------------------------------------
  // Number to string

  /** Number::toString(x) (that is, String(x)) for the values the model renders. */
  function NumberToString(x: Number): (r: Result<string, Error>)
    ensures r.Err? ==> r.error == NotModelled
    ensures r.Ok? ==> r.value != []
  {
    match x
    case NaN => Ok("NaN")
    case Infinity(negative) => Ok(if negative then "-Infinity" else "Infinity")
    case Finite(r) => if IsIntegral(r) then Ok(IntToString(r.Floor)) else Err(NotModelled)
  }

  function IntToString(i: int): string {
    if i < 0 then "-" + NatToString(-i) else NatToString(i)
  }

  /** Plain digits below 10^21, exponent notation ("1.5e+21") from there on. */
  function NatToString(m: nat): string {
    var d := Digits(m, 10);
    if |d| <= 21 then d
    else Mantissa(StripTrailingZeros(d)) + "e+" + Digits(|d| - 1, 10)
  }

  /** The first digit, then a point and the others when there are others. */
  function Mantissa(digits: string): string
    requires |digits| >= 1
  {
    if |digits| == 1 then digits else [digits[0]] + "." + digits[1..]
  }

  /** Number.prototype.toString(radix) for radices other than ten. */
  function RadixString(x: Number, radix: nat): (r: Result<string, Error>)
    requires 2 <= radix <= 36
    ensures r.Err? ==> r.error == NotModelled
  {
    match x
    case NaN => Ok("NaN")
    case Infinity(negative) => Ok(if negative then "-Infinity" else "Infinity")
    case Finite(r) =>
      if !IsIntegral(r) then Err(NotModelled)
      else if r < 0.0 then Ok("-" + Digits(Abs(r.Floor), radix))
      else Ok(Digits(r.Floor, radix))
  }

  // ---------------------------------------------------------------------
  // String to number

  /** WhiteSpace and LineTerminator code points, which the number parsers skip. */
  predicate IsSpace(c: char) {
    var k := c as int;
    k == 0x09 || k == 0x0A || k == 0x0B || k == 0x0C || k == 0x0D || k == 0x20
    || k == 0xA0 || k == 0x1680 || (0x2000 <= k <= 0x200A) || k == 0x2028
    || k == 0x2029 || k == 0x202F || k == 0x205F || k == 0x3000 || k == 0xFEFF
  }

  function TrimStart(s: string): (t: string)
    ensures |t| <= |s| && t == s[|s| - |t|..]
    ensures t != [] ==> !IsSpace(t[0])
    decreases |s|
  {
    if s != [] && IsSpace(s[0]) then TrimStart(s[1..]) else s
  }

  function TrimEnd(s: string): (t: string)
    ensures |t| <= |s| && t == s[..|t|]
    ensures t != [] ==> !IsSpace(t[|t| - 1])
    decreases |s|
  {
    if s != [] && IsSpace(s[|s| - 1]) then TrimEnd(s[..|s| - 1]) else s
  }

  /** m * 10^e as a real. */
  function Scale(m: nat, e: int): real {
    if e >= 0 then (m * Pow10(e)) as real else (m as real) / (Pow10(-e) as real)
  }

  /** The optional exponent part ("e", an optional sign, digits) at `p`:
      where it ends and the exponent it denotes (`p` and 0 when there is none). */
  function ExponentPart(t: string, p: nat): (res: (nat, int))
    requires p <= |t|
    ensures p <= res.0 <= |t|
  {
    if p < |t| && (t[p] == 'e' || t[p] == 'E') then
      var signed := p + 1 < |t| && (t[p + 1] == '+' || t[p + 1] == '-');
      var q := if signed then p + 2 else p + 1;
      var e := RunEnd(t, q, 10);
      if e == q then (p, 0)
      else
        var v := ValueOf(t[q..e], 10);
        (e, if signed && t[p + 1] == '-' then -(v as int) else v)
    else (p, 0)
  }

  /** The longest prefix of `t` that is a StrDecimalLiteral: its length and
      its value; None when no prefix is one. */
  function DecimalPrefix(t: string): (res: Option<(nat, Number)>)
    ensures res.Some? ==> 0 < res.value.0 <= |t|
  {
    var negative := t != [] && t[0] == '-';
    var i := if t != [] && (t[0] == '-' || t[0] == '+') then 1 else 0;
    if |t| >= i + 8 && t[i..i + 8] == "Infinity" then Some((i + 8, Infinity(negative)))
    else
      var intEnd := RunEnd(t, i, 10);
      var hasDot := intEnd < |t| && t[intEnd] == '.';
      var fracStart := if hasDot then intEnd + 1 else intEnd;
      var fracEnd := if hasDot then RunEnd(t, fracStart, 10) else intEnd;
      if intEnd == i && fracEnd == fracStart then None
      else
        var (end, exponent) := ExponentPart(t, fracEnd);
        var magnitude := Scale(ValueOf(t[i..intEnd] + t[fracStart..fracEnd], 10), exponent - (fracEnd - fracStart));
        Some((end, Finite(if negative then -magnitude else magnitude)))
  }

  /** parseInt(s, 10) when `detectHex` is false; parseInt(s) (radix left
      out, so a "0x" prefix selects radix 16) when it is true. */
  function ParseInt(s: string, detectHex: bool): (x: Number)
    ensures x.NaN? || (x.Finite? && IsIntegral(x.r))
  {
    var t := TrimStart(s);
    var negative := t != [] && t[0] == '-';
    var u := if t != [] && (t[0] == '-' || t[0] == '+') then t[1..] else t;
    if detectHex && HexPrefix(u) then LeadingInteger(negative, u[2..], 16)
    else LeadingInteger(negative, u, 10)
  }

  /** "0x" or "0X" at the front. */
  predicate HexPrefix(u: string) {
    |u| >= 2 && u[0] == '0' && (u[1] == 'x' || u[1] == 'X')
  }

  /** The integer the leading digits of `digits` spell in `radix`, negated
      when a '-' came before them; NaN when there is no leading digit. */
  function LeadingInteger(negative: bool, digits: string, radix: nat): (x: Number)
    requires radix == 10 || radix == 16
    ensures x.NaN? || (x.Finite? && IsIntegral(x.r))
  {
    var n := RunEnd(digits, 0, radix);
    if n == 0 then NaN
    else
      var m := ValueOf(digits[..n], radix);
      Finite((if negative then -(m as int) else m) as real)
  }

  lemma TrimStartKeeps(s: string)
    requires s != [] && !IsSpace(s[0])
    ensures TrimStart(s) == s
  {
  }

  /** A "0x" prefix is detected only where an 'x' or 'X' is: a string
      without one reads the same with or without the radix. */
  lemma HexNeedsAnX(s: string)
    requires forall k :: 0 <= k < |s| ==> s[k] != 'x' && s[k] != 'X'
    ensures ParseInt(s, true) == ParseInt(s, false)
  {
    var t := TrimStart(s);
    var u := if t != [] && (t[0] == '-' || t[0] == '+') then t[1..] else t;
    assert u == s[|s| - |u|..];
    assert !HexPrefix(u) by {
      if |u| >= 2 {
        assert u[1] == s[|s| - |u| + 1];
      }
    }
  }

  /** parseInt(d, 10) for a non-empty digit string. */
  lemma ParseIntOfDigits(d: string)
    requires d != [] && AllDigits(d, 10)
    ensures ParseInt(d, false) == Finite(ValueOf(d, 10) as real)
  {
    assert d[0..] == d;
    RunEndAll(d, 0, 10);
    assert d[..|d|] == d;
    assert DigitOf(d[0]) < 10;
    TrimStartKeeps(d);
  }

  /** parseInt("-" + d, 10) for a non-empty digit string. */
  lemma ParseIntOfNegatedDigits(d: string)
    requires d != [] && AllDigits(d, 10)
    ensures ParseInt("-" + d, false) == Finite((-(ValueOf(d, 10) as int)) as real)
  {
    var s := "-" + d;
    assert s[1..] == d;
    assert d[0..] == d;
    RunEndAll(d, 0, 10);
    assert d[..|d|] == d;
    TrimStartKeeps(s);
  }

  /** Below 10^21 an integer is written in plain digits. */
  lemma PlainDigits(m: nat)
    requires m < PlainLimit
    ensures NatToString(m) == Digits(m, 10)
  {
    PlainLimitIsPow10();
    DigitsLength(m, 21);
  }

  /** parseInt reads back the decimal string of an integer below 10^21. */
  lemma ParseIntRoundTrip(n: int)
    requires Abs(n) < PlainLimit
    ensures ParseInt(IntToString(n), false) == Finite(n as real)
  {
    var m := Abs(n);
    var d := Digits(m, 10);
    PlainDigits(m);
    DigitsRoundTrip(m, 10);
    if n < 0 {
      assert IntToString(n) == "-" + d;
      ParseIntOfNegatedDigits(d);
    } else {
      assert IntToString(n) == d;
      ParseIntOfDigits(d);
    }
  }

  /** parseFloat(s). */
  function ParseFloat(s: string): Number {
    match DecimalPrefix(TrimStart(s))
    case None => NaN
    case Some((_, x)) => x
  }

  /** StringToNumber(s): what `s >= 0` compares; the whole trimmed string
      must be a numeric literal, and the empty string is 0. */
  function StringToNumber(s: string): Number {
    var t := TrimEnd(TrimStart(s));
    if t == [] then Finite(0.0)
    else if |t| >= 2 && t[0] == '0' && t[1] in "xXoObB" then
      var radix := if t[1] in "xX" then 16 else if t[1] in "oO" then 8 else 2;
      var digits := t[2..];
      if digits != [] && AllDigits(digits, radix) then Finite(ValueOf(digits, radix) as real) else NaN
    else
      match DecimalPrefix(t)
      case Some((n, x)) => if n == |t| then x else NaN
      case None => NaN
  }

  /** ToUint32 (modulus 2^32) and ToUint16 (modulus 2^16). */
  function ToUint(x: Number, modulus: nat): (k: nat)
    requires modulus > 0
    ensures k < modulus
    ensures x.Finite? ==> (k - Trunc(x.r)) % modulus == 0
    ensures !x.Finite? ==> k == 0
  {
    match x
    case Finite(r) =>
      ModOfDifference(Trunc(r), modulus);
      Trunc(r) % modulus
    case _ => 0
  }

  /** `t % m` differs from `t` by a multiple of `m`. */
  lemma ModOfDifference(t: int, m: int)
    requires m > 0
    ensures (t % m - t) % m == 0
  {
    var a := t % m - t;
    var k := -(t / m) - a / m;
    assert a % m == k * m by {
      assert a == -(t / m) * m;
      assert a == a / m * m + a % m;
    }
    if k <= -1 {
      assert k * m == -m + (k + 1) * m;
    }
  }

  /** `x >= 0` for a number: false for NaN. */
  predicate IsNonNegative(x: Number) {
    match x
    case Finite(r) => r >= 0.0
    case NaN => false
    case Infinity(negative) => !negative
  }

  /** ToBoolean of a number. */
  predicate NumberTruthy(x: Number) {
    match x
    case Finite(r) => r != 0.0
    case NaN => false
    case Infinity(_) => true
  }

  /** `a + b` on numbers. */
  function Add(a: Number, b: Number): Number {
    match (a, b)
    case (Finite(x), Finite(y)) => Finite(x + y)
    case (Infinity(n), Infinity(m)) => if n == m then a else NaN
    case (Infinity(_), Finite(_)) => a
    case (Finite(_), Infinity(_)) => b
    case _ => NaN
  }

  // ---------------------------------------------------------------------
  // Fixed, exponential and precision notation

  /** Decimal +1 on a digit string of the same length, and whether it carried out. */
  function Increment(s: string): (res: (string, bool))
    requires AllDigits(s, 10)
    ensures |res.0| == |s| && AllDigits(res.0, 10)
    decreases |s|
  {
    if s == [] then ([], true)
    else
      var last := s[|s| - 1];
      if last != '9' then (s[..|s| - 1] + [(last as int + 1) as char], false)
      else
        var (p, carry) := Increment(s[..|s| - 1]);
        (p + ['0'], carry)
  }

  /** The first `k` significant digits of the decimal digits `d`, rounded half
      up (ties go to the larger value), and whether rounding gained a digit. */
  function RoundDigits(d: string, k: nat): (res: (string, bool))
    requires 1 <= k && AllDigits(d, 10)
    ensures |res.0| == k && AllDigits(res.0, 10)
  {
    if |d| <= k then (d + Repeat('0', k - |d|), false)
    else if d[k] < '5' then (d[..k], false)
    else
      var (up, carry) := Increment(d[..k]);
      if carry then ("1" + Repeat('0', k - 1), true) else (up, false)
  }

  /** Number.prototype.toFixed(digits). */
  function ToFixed(x: Number, digits: nat): (r: Result<string, Error>)
    ensures r.Err? ==> r.error == NotModelled || r.error == RangeError
  {
    if digits > 100 then Err(RangeError)
    else
      match x
      case Finite(r) =>
        if r >= PlainLimit as real || r <= -(PlainLimit as real) then NumberToString(x)
        else if !IsIntegral(r) then Err(NotModelled)
        else
          Ok((if r < 0.0 then "-" else "") + Digits(Abs(r.Floor), 10)
             + (if digits > 0 then "." + Repeat('0', digits) else ""))
      case _ => NumberToString(x)
  }

  /** Number.prototype.toExponential(digits), or toExponential() for None. */
  function ToExponential(x: Number, digits: Option<nat>): (r: Result<string, Error>)
    ensures r.Err? ==> r.error == NotModelled || r.error == RangeError
  {
    match x
    case Finite(r) =>
      if digits.Some? && digits.value > 100 then Err(RangeError)
      else if !IsIntegral(r) then Err(NotModelled)
      else
        var m := Abs(r.Floor);
        var d := Digits(m, 10);
        var (significant, e) :=
          if m == 0 then (Repeat('0', (if digits.Some? then digits.value else 0) + 1), 0)
          else if digits.None? then (StripTrailingZeros(d), |d| - 1)
          else
            var (rounded, carry) := RoundDigits(d, digits.value + 1);
            (rounded, if carry then |d| else |d| - 1);
        Ok((if r < 0.0 then "-" else "") + Mantissa(significant) + "e+" + Digits(e, 10))
    case _ => NumberToString(x)
  }

  /** Number.prototype.toPrecision(precision). */
  function ToPrecision(x: Number, precision: nat): (r: Result<string, Error>)
    ensures r.Err? ==> r.error == NotModelled || r.error == RangeError
  {
    match x
    case Finite(r) =>
      if precision < 1 || precision > 100 then Err(RangeError)
      else if !IsIntegral(r) then Err(NotModelled)
      else
        var sign := if r < 0.0 then "-" else "";
        var m := Abs(r.Floor);
        var d := Digits(m, 10);
        var (significant, e) :=
          if m == 0 then (Repeat('0', precision), 0)
          else
            var (rounded, carry) := RoundDigits(d, precision);
            (rounded, if carry then |d| else |d| - 1);
        if e >= precision then Ok(sign + Mantissa(significant) + "e+" + Digits(e, 10))
        else if e == precision - 1 then Ok(sign + significant)
        else Ok(sign + significant[..e + 1] + "." + significant[e + 1..])
    case _ => NumberToString(x)
  }
}
