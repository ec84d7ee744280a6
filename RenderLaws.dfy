/** What TSSprintf.format promises about a rendering: the sign rule and
    padding of integer conversions, truncation by precision, which flags
    each conversion ignores, how arguments are picked, and the error a
    missing key raises. */
module RenderLaws {
  import opened Wrappers
  import opened Errors
  import opened Strings
  import opened JsNumbers
  import opened JsValues
  import opened Template
  import opened Render

  // ---------------------------------------------------------------------
  // Integers under %d and %i

  /** The sign a [diefg] conversion writes, from the number `arg >= 0`
      compares: '-' when that fails, '+' when the flag asks for it. */
  function SignOf(x: Number, plus: bool): string {
    if !IsNonNegative(x) then "-" else if plus then "+" else ""
  }

  /** The sign an integer argument gets. */
  function IntegerSign(n: int, plus: bool): string {
    SignOf(Finite(n as real), plus)
  }

  /** An integer conversion converts `parseInt(arg, 10)`. */
  lemma IntegerDispatch(conv: char, width: Option<nat>, precision: Option<nat>, arg: Value, n: Number)
    requires IsIntegerConversion(conv) && IntArg(arg) == Ok(n)
    ensures Convert(conv, width, precision, arg) == IntegerConversion(conv, n)
  {
  }

  /** j, o, s, t, T and v convert the argument as it is. */
  lemma TextDispatch(conv: char, width: Option<nat>, precision: Option<nat>, arg: Value)
    requires conv == 'j' || conv == 'o' || conv == 's' || conv == 't' || conv == 'T' || conv == 'v'
    ensures Convert(conv, width, precision, arg) == TextConversion(conv, width, precision, arg)
  {
  }

  /** parseInt(String(n), 10) is n for an integer below 10^21: the
      argument of an integer conversion comes through unchanged. */
  lemma IntArgOfInteger(n: int)
    requires Abs(n) < PlainLimit
    ensures IntArg(Num(Finite(n as real))) == Ok(Finite(n as real))
  {
    assert IsIntegral(n as real) && (n as real).Floor == n;
    assert ToStr(Num(Finite(n as real))) == Ok(IntToString(n));
    ParseIntRoundTrip(n);
  }

  /** %d and %i convert an integer below 10^21 to its decimal string. */
  lemma ConvertInteger(conv: char, width: Option<nat>, precision: Option<nat>, n: int)
    requires (conv == 'd' || conv == 'i') && Abs(n) < PlainLimit
    ensures Convert(conv, width, precision, Num(Finite(n as real))) == Ok(IntToString(n))
  {
    IntArgOfInteger(n);
    IntegerDispatch(conv, width, precision, Num(Finite(n as real)), Finite(n as real));
    assert IsIntegral(n as real) && (n as real).Floor == n;
  }

  /** The decimal string of an integer below 10^21, its sign taken off. */
  lemma IntegerText(n: int)
    requires Abs(n) < PlainLimit
    ensures n < 0 ==> IntToString(n) == "-" + Digits(Abs(n), 10)
    ensures n >= 0 ==> IntToString(n) == Digits(Abs(n), 10)
    ensures StripSign(IntToString(n)) == Digits(Abs(n), 10)
  {
    var digits := Digits(Abs(n), 10);
    PlainDigits(Abs(n));
    assert DigitOf(digits[0]) < 10;
    if n < 0 {
      assert ("-" + digits)[1..] == digits;
    }
  }

  /** %d and %i write an integer below 10^21 as its digits, with the sign
      in front and the field padded to the width. */
  lemma IntegerDirective(d: Segment, n: int)
    requires d.Dir? && (d.conv == 'd' || d.conv == 'i') && Abs(n) < PlainLimit
    ensures RenderDirective(d, Num(Finite(n as real)))
      == Ok(Layout(IntegerSign(n, d.plus), Digits(Abs(n), 10), PadChar(d.pad), d.left, d.width))
  {
    var x := Finite(n as real);
    var text := IntToString(n);
    ConvertInteger(d.conv, d.width, d.precision, n);
    assert ToNumber(Num(x)) == Ok(x);
    SignedDirective(d, Num(x), x, text);
    IntegerText(n);
    assert IsNonNegative(x) <==> n >= 0;
    assert (if IntegerSign(n, d.plus) == "" then text else StripSign(text)) == Digits(Abs(n), 10);
  }

  /** parseInt("+" + d, 10) for a non-empty digit string. */
  lemma ParseIntOfPlusDigits(d: string)
    requires d != [] && AllDigits(d, 10)
    ensures ParseInt("+" + d, false) == Finite(ValueOf(d, 10) as real)
  {
    var s := "+" + d;
    assert s[1..] == d;
    assert d[0..] == d;
    RunEndAll(d, 0, 10);
    assert d[..|d|] == d;
    TrimStartKeeps(s);
  }

  /** %d and %i never fail on an integer, however large: String(n) and
      parseInt give an integer or NaN, and either has a string. */
  lemma IntegerNeverFails(d: Segment, n: int)
    requires d.Dir? && (d.conv == 'd' || d.conv == 'i')
    ensures RenderDirective(d, Num(Finite(n as real))).Ok?
  {
    var arg := Num(Finite(n as real));
    assert IsIntegral(n as real);
    assert ToStr(arg).Ok?;
    var x := IntArg(arg).value;
    IntegerDispatch(d.conv, d.width, d.precision, arg, x);
    assert ToNumber(arg).Ok?;
  }

  /** Without a width, parseInt reads back the integer %d wrote. */
  lemma IntegerRoundTrip(d: Segment, n: int)
    requires d.Dir? && (d.conv == 'd' || d.conv == 'i') && Abs(n) < PlainLimit && d.width.None?
    ensures RenderDirective(d, Num(Finite(n as real))).Ok?
    ensures ParseInt(RenderDirective(d, Num(Finite(n as real))).value, false) == Finite(n as real)
  {
    var text := IntegerSign(n, d.plus) + Digits(Abs(n), 10);
    assert RenderDirective(d, Num(Finite(n as real))) == Ok(text) by {
      IntegerDirective(d, n);
      UnpaddedLayout(IntegerSign(n, d.plus), Digits(Abs(n), 10), PadChar(d.pad), d.left);
    }
    SignedDigitsRoundTrip(n, d.plus);
  }

  /** parseInt reads back an integer's digits behind the sign %d writes. */
  lemma SignedDigitsRoundTrip(n: int, plus: bool)
    requires Abs(n) < PlainLimit
    ensures ParseInt(IntegerSign(n, plus) + Digits(Abs(n), 10), false) == Finite(n as real)
  {
    var digits := Digits(Abs(n), 10);
    DigitsRoundTrip(Abs(n), 10);
    assert ValueOf(digits, 10) == Abs(n);
    if n < 0 {
      assert IntegerSign(n, plus) + digits == "-" + digits;
      ParseIntOfNegatedDigits(digits);
      assert -(ValueOf(digits, 10) as int) == n;
    } else if plus {
      assert IntegerSign(n, plus) + digits == "+" + digits;
      ParseIntOfPlusDigits(digits);
    } else {
      assert IntegerSign(n, plus) + digits == digits;
      ParseIntOfDigits(digits);
    }
  }

  /** A %d placeholder with no precision, its other options as given. */
  predicate DecimalDirective(d: Segment, plus: bool, pad: Pad, left: bool, width: Option<nat>) {
    d.Dir? && d.conv == 'd' && d.plus == plus && d.pad == pad && d.left == left && d.width == width
  }

  /** The layouts of the examples below. */
  lemma ZeroPadLayout(sign: string, t: string, r: string)
    requires || (sign, t, r) == ("", "42", "00042")
             || (sign, t, r) == ("-", "42", "-0042")
             || (sign, t, r) == ("", "-ff", "00-ff")
    ensures Layout(sign, t, '0', false, Some(5)) == r
  {
    if sign == "-" || t == "-ff" {
      assert StrRepeat('0', 2) == "00";
    } else {
      assert StrRepeat('0', 3) == "000";
    }
  }

  lemma LeftLayout(t: string)
    requires t == "3"
    ensures Layout("", t, ' ', true, Some(5)) == "3    "
  {
    assert StrRepeat(' ', 4) == "    ";
  }

  /** "%05d" on 42 is "00042". */
  lemma ZeroPaddedExample(d: Segment, n: int)
    requires DecimalDirective(d, false, ZeroPad, false, Some(5)) && n == 42
    ensures RenderDirective(d, Num(Finite(n as real))) == Ok("00042")
  {
    IntegerDirective(d, n);
    assert IntegerSign(n, d.plus) == "";
    assert Digits(42, 10) == "42";
    ZeroPadLayout("", "42", "00042");
  }

  /** "%-5d" on 3 is "3    ". */
  lemma LeftJustifiedExample(d: Segment, n: int)
    requires DecimalDirective(d, false, NoPad, true, Some(5)) && n == 3
    ensures RenderDirective(d, Num(Finite(n as real))) == Ok("3    ")
  {
    IntegerDirective(d, n);
    assert IntegerSign(n, d.plus) == "";
    assert Digits(3, 10) == "3";
    LeftLayout("3");
  }

  /** "%+d" on 7 is "+7", and on -7 is "-7". */
  lemma PlusExample(d: Segment, n: int)
    requires DecimalDirective(d, true, NoPad, false, None) && (n == 7 || n == -7)
    ensures RenderDirective(d, Num(Finite(n as real))) == Ok(if n == 7 then "+7" else "-7")
  {
    IntegerDirective(d, n);
    assert Digits(7, 10) == "7";
    if n == 7 {
      assert IntegerSign(n, d.plus) == "+";
      assert Layout("+", "7", ' ', false, None) == "+7";
    } else {
      assert IntegerSign(n, d.plus) == "-";
      assert Layout("-", "7", ' ', false, None) == "-7";
    }
  }

  /** A zero pad goes between the sign and the digits: "%05d" on -42 is "-0042". */
  lemma NegativeZeroPaddedExample(d: Segment, n: int)
    requires DecimalDirective(d, false, ZeroPad, false, Some(5)) && n == -42
    ensures RenderDirective(d, Num(Finite(n as real))) == Ok("-0042")
  {
    IntegerDirective(d, n);
    assert IntegerSign(n, d.plus) == "-";
    assert Digits(42, 10) == "42";
    ZeroPadLayout("-", "42", "-0042");
  }

  // ---------------------------------------------------------------------
  // The sign rule on the argument as given

  /** d, i, e, f and g: the sign comes from `arg >= 0` on the argument as
      given, and replaces the sign the text carries when one is written. */
  lemma SignedDirective(d: Segment, arg: Value, x: Number, text: string)
    requires d.Dir? && IsConversion(d.conv) && Signed(d.conv)
    requires ToNumber(arg) == Ok(x) && Convert(d.conv, d.width, d.precision, arg) == Ok(text)
    ensures var sign := SignOf(x, d.plus);
      RenderDirective(d, arg) == Ok(Layout(sign, if sign == "" then text else StripSign(text), PadChar(d.pad), d.left, d.width))
  {
    assert d.conv != 'j';
  }

  /** "abc" is not a number, and has no integer prefix. */
  lemma NoNumber(s: string)
    requires s == "abc"
    ensures ToNumber(Str(s)) == Ok(NaN) && IntArg(Str(s)) == Ok(NaN)
  {
    assert TrimStart(s) == s;
    assert TrimEnd(s) == s;
    assert RunEnd(s, 0, 10) == 0;
  }

  /** "5abc" is not a number, but its integer prefix is 5, written "5". */
  lemma NumberPrefix(s: string)
    requires s == "5abc"
    ensures ToNumber(Str(s)) == Ok(NaN) && IntArg(Str(s)) == Ok(Finite(5.0)) && Digits(5, 10) == "5"
  {
    assert TrimStart(s) == s;
    assert TrimEnd(s) == s;
    assert RunEnd(s, 1, 10) == 1;
    assert RunEnd(s, 0, 10) == 1;
    assert s[0..1] == s[..1] == "5";
    assert ValueOf("5", 10) == 5;
    assert ExponentPart(s, 1) == (1, 0);
  }

  /** %d and %i write "NaN" when the argument has no integer prefix. */
  lemma ConvertNaN(conv: char, width: Option<nat>, precision: Option<nat>, arg: Value)
    requires (conv == 'd' || conv == 'i') && IntArg(arg) == Ok(NaN)
    ensures Convert(conv, width, precision, arg) == Ok("NaN")
  {
    IntegerDispatch(conv, width, precision, arg, NaN);
  }

  /** %d and %i write the digits of the integer prefix `k` of the argument. */
  lemma ConvertPrefix(conv: char, width: Option<nat>, precision: Option<nat>, arg: Value, k: nat)
    requires (conv == 'd' || conv == 'i') && IntArg(arg) == Ok(Finite(k as real)) && k < PlainLimit
    ensures Convert(conv, width, precision, arg) == Ok(Digits(k, 10))
  {
    IntegerDispatch(conv, width, precision, arg, Finite(k as real));
    assert IsIntegral(k as real) && (k as real).Floor == k;
    PlainDigits(k);
  }

  /** A minus sign in front of the digits of k, which have no sign to strip. */
  lemma MinusDigits(k: nat)
    ensures Layout("-", StripSign(Digits(k, 10)), ' ', false, None) == "-" + Digits(k, 10)
  {
    var digits := Digits(k, 10);
    assert DigitOf(digits[0]) < 10;
    assert StripSign(digits) == digits;
    UnpaddedLayout("-", digits, ' ', false);
  }

  /** A minus sign in front of "NaN". */
  lemma MinusNaN(t: string)
    requires t == "NaN"
    ensures Layout("-", StripSign(t), ' ', false, None) == "-NaN"
  {
    assert StripSign(t) == t;
    UnpaddedLayout("-", t, ' ', false);
  }

  /** Without a width there is no padding. */
  lemma UnpaddedLayout(sign: string, text: string, padChar: char, left: bool)
    ensures Layout(sign, text, padChar, left, None) == sign + text
  {
  }

  /** The sign comes from `arg >= 0` on the argument itself, not from the
      parsed number: %d on an argument that does not compare as >= 0 and
      has no integer prefix (such as "abc", by NoNumber) is "-NaN". */
  lemma NotANumberGetsMinus(d: Segment, arg: Value)
    requires DecimalDirective(d, false, NoPad, false, None)
    requires ToNumber(arg) == Ok(NaN) && IntArg(arg) == Ok(NaN)
    ensures RenderDirective(d, arg) == Ok("-NaN")
  {
    ConvertNaN(d.conv, d.width, d.precision, arg);
    SignedDirective(d, arg, NaN, "NaN");
    MinusNaN("NaN");
  }

  /** Likewise %d on an argument that does not compare as >= 0 but whose
      integer prefix is k (such as "5abc", by NumberPrefix) writes k with a
      minus sign: "-5". */
  lemma NumberPrefixGetsMinus(d: Segment, arg: Value, k: nat)
    requires DecimalDirective(d, false, NoPad, false, None)
    requires ToNumber(arg) == Ok(NaN) && IntArg(arg) == Ok(Finite(k as real)) && k < PlainLimit
    ensures RenderDirective(d, arg) == Ok("-" + Digits(k, 10))
  {
    ConvertPrefix(d.conv, d.width, d.precision, arg, k);
    var digits := Digits(k, 10);
    SignedDirective(d, arg, NaN, digits);
    MinusDigits(k);
  }

  // ---------------------------------------------------------------------
  // Flags that conversions ignore

  /** Only d, i, e, f and g look at the + flag. */
  lemma PlusOnlyForSigned(d: Segment, arg: Value)
    requires d.Dir? && IsConversion(d.conv) && !Signed(d.conv)
    ensures RenderDirective(d.(plus := true), arg) == RenderDirective(d.(plus := false), arg)
  {
  }

  /** j ignores the sign, the pad and the justification: its output is
      the JSON text, the width setting only its indentation. */
  lemma JsonIgnoresLayout(d: Segment, arg: Value)
    requires d.Dir? && d.conv == 'j'
    ensures RenderDirective(d, arg) == Convert(d.conv, d.width, d.precision, arg)
    ensures RenderDirective(d, arg).Ok? ==>
      (var json := Json.Stringify(arg, if d.width.Some? then d.width.value else 0);
       json.Ok? && RenderDirective(d, arg).value == if json.value.Some? then json.value.value else "")
  {
    TextDispatch(d.conv, d.width, d.precision, arg);
  }

  /** Without a width, b, c, o, u, x, X, s, t, T and v write their text as it is. */
  lemma UnsignedIsText(d: Segment, arg: Value)
    requires d.Dir? && IsConversion(d.conv) && !Signed(d.conv) && d.width.None?
    ensures RenderDirective(d, arg) == Convert(d.conv, d.width, d.precision, arg)
  {
    var text := Convert(d.conv, d.width, d.precision, arg);
    if text.Ok? {
      assert Layout("", text.value, PadChar(d.pad), d.left, None) == text.value;
    }
  }

  /** b, c, o, u, x, X, s, t, T and v get no sign: their text is only padded. */
  lemma UnsignedDirective(d: Segment, arg: Value, text: string)
    requires d.Dir? && IsConversion(d.conv) && !Signed(d.conv) && d.conv != 'j'
    requires Convert(d.conv, d.width, d.precision, arg) == Ok(text)
    ensures RenderDirective(d, arg) == Ok(Layout("", text, PadChar(d.pad), d.left, d.width))
  {
  }

  /** toString(radix) of an integer below 10^21. */
  lemma RadixOfInteger(n: int, radix: nat)
    requires 2 <= radix <= 36
    ensures RadixString(Finite(n as real), radix) == Ok((if n < 0 then "-" else "") + Digits(Abs(n), radix))
  {
    assert IsIntegral(n as real) && (n as real).Floor == n;
    if n >= 0 {
      assert "" + Digits(Abs(n), radix) == Digits(Abs(n), radix);
    }
  }

  /** The hex digits of an integer, a minus sign in front when negative. */
  function Hex(n: int): string {
    (if n < 0 then "-" else "") + Digits(Abs(n), 16)
  }

  /** %x and %X of an integer below 10^21 are its hex digits, a minus sign
      in front when negative; %X upper-cases them. */
  lemma ConvertHex(conv: char, width: Option<nat>, precision: Option<nat>, n: int)
    requires (conv == 'x' || conv == 'X') && Abs(n) < PlainLimit
    ensures conv == 'x' ==> Convert(conv, width, precision, Num(Finite(n as real))) == Ok(Hex(n))
    ensures conv == 'X' ==> Convert(conv, width, precision, Num(Finite(n as real))) == Ok(Upper(Hex(n)))
  {
    var x := Finite(n as real);
    IntArgOfInteger(n);
    IntegerDispatch(conv, width, precision, Num(x), x);
    RadixOfInteger(n, 16);
    assert RadixString(x, 16) == Ok(Hex(n));
  }

  /** The hex text of -255. */
  lemma HexOfMinus255(n: int)
    requires n == -255
    ensures Hex(n) == "-ff"
  {
    assert Digits(255, 16) == "ff";
  }

  /** %x and the like keep the minus sign of the number in their text, so a
      zero pad goes in front of it: "%05x" on -255 is "00-ff". */
  lemma UnsignedConversionKeepsMinus(d: Segment, n: int)
    requires d.Dir? && d.conv == 'x' && d.pad == ZeroPad && !d.left && d.width == Some(5) && n == -255
    ensures RenderDirective(d, Num(Finite(n as real))) == Ok("00-ff")
  {
    ConvertHex(d.conv, d.width, d.precision, n);
    HexOfMinus255(n);
    UnsignedDirective(d, Num(Finite(n as real)), "-ff");
    ZeroPadLayout("", "-ff", "00-ff");
  }

  /** "zz" has no integer prefix. */
  lemma NoInteger(s: string)
    requires s == "zz"
    ensures ParseInt(s, false) == NaN
    ensures IntArg(Str(s)) == Ok(NaN)
  {
    assert TrimStart(s) == s;
    assert RunEnd(s, 0, 10) == 0;
  }

  /** The upper-cased hex text of 255. */
  lemma UpperHexOf255(n: int)
    requires n == 255
    ensures Upper(Hex(n)) == "FF"
  {
    assert Digits(255, 16) == "ff";
    assert Upper("ff") == "FF";
  }

  /** %X upper-cases the hex digits: %X on 255 is "FF". */
  lemma UpperHexExample(d: Segment, n: int)
    requires d.Dir? && d.conv == 'X' && d.width.None? && n == 255
    ensures RenderDirective(d, Num(Finite(n as real))) == Ok("FF")
  {
    ConvertHex(d.conv, d.width, d.precision, n);
    UpperHexOf255(n);
    UnsignedDirective(d, Num(Finite(n as real)), "FF");
    assert "" + "FF" == "FF";
  }

  /** %X upper-cases "NaN" too: %X on an argument without an integer prefix
      (such as "zz", by NoInteger) is "NAN". */
  lemma UpperNaN(d: Segment, arg: Value)
    requires d.Dir? && d.conv == 'X' && d.width.None? && IntArg(arg) == Ok(NaN)
    ensures RenderDirective(d, arg) == Ok("NAN")
  {
    UpperNaNText(d.conv, d.width, d.precision, arg);
    UnsignedDirective(d, arg, "NAN");
    assert "" + "NAN" == "NAN";
  }

  lemma UpperNaNText(conv: char, width: Option<nat>, precision: Option<nat>, arg: Value)
    requires conv == 'X' && IntArg(arg) == Ok(NaN)
    ensures Convert(conv, width, precision, arg) == Ok("NAN")
  {
    IntegerDispatch(conv, width, precision, arg, NaN);
    UpperOfNaN("NaN");
  }

  lemma UpperOfNaN(t: string)
    requires t == "NaN"
    ensures Upper(t) == "NAN"
  {
    var u := Upper(t);
    assert u[0] == 'N' && u[1] == 'A' && u[2] == 'N';
  }

  // ---------------------------------------------------------------------
  // Precision truncates s, t, T and v

  /** The text of s, t, T and v with precision p is the first p characters
      of their text without one, or all of it when it is shorter. */
  lemma TextTruncates(conv: char, width: Option<nat>, p: nat, arg: Value)
    requires conv == 's' || conv == 't' || conv == 'T' || conv == 'v'
    requires TextConversion(conv, width, Some(p), arg).Ok?
    ensures TextConversion(conv, width, None, arg).Ok?
    ensures var r := TextConversion(conv, width, Some(p), arg).value;
      var full := TextConversion(conv, width, None, arg).value;
      |r| == (if |full| <= p then |full| else p) && r == full[..|r|]
  {
    if conv == 'v' {
      assert arg.Str? && ToStr(arg) == Ok(arg.s);
    }
  }

  /** With precision p, s, t, T and v write the first p characters of what
      they write without one, or all of it when it is shorter. */
  lemma PrecisionTruncates(d: Segment, arg: Value)
    requires d.Dir? && (d.conv == 's' || d.conv == 't' || d.conv == 'T' || d.conv == 'v')
    requires d.precision.Some? && d.width.None?
    requires RenderDirective(d, arg).Ok?
    ensures RenderDirective(d.(precision := None), arg).Ok?
    ensures var r := RenderDirective(d, arg).value;
      var full := RenderDirective(d.(precision := None), arg).value;
      |r| == (if |full| <= d.precision.value then |full| else d.precision.value) && r == full[..|r|]
  {
    var e := d.(precision := None);
    UnsignedIsText(d, arg);
    UnsignedIsText(e, arg);
    TextDispatch(d.conv, d.width, d.precision, arg);
    TextDispatch(e.conv, e.width, e.precision, arg);
    TextTruncates(d.conv, d.width, d.precision.value, arg);
  }

  // ---------------------------------------------------------------------
  // Picking arguments

  /** A directive with no options that reads the cursor's argument as a string. */
  const PlainString: Segment := Dir("%s", Next, false, NoPad, false, None, None, 's')

  /** "%s" with no width and no precision writes a string argument as it is. */
  lemma StringWrites(d: Segment, s: string)
    requires d.Dir? && d.conv == 's' && d.width.None? && d.precision.None?
    ensures RenderDirective(d, Str(s)) == Ok(s)
  {
    UnsignedIsText(d, Str(s));
    TextDispatch(d.conv, d.width, d.precision, Str(s));
  }

  lemma ConcatCons(a: string, rest: seq<string>)
    ensures Concat([a] + rest) == a + Concat(rest)
    decreases |rest|
  {
    if rest != [] {
      var all := [a] + rest;
      assert all[..|all| - 1] == [a] + rest[..|rest| - 1];
      ConcatCons(a, rest[..|rest| - 1]);
    } else {
      assert [a] + rest == [a];
    }
  }

  function Strs(strs: seq<string>): (vs: seq<Value>)
    ensures |vs| == |strs| && forall i :: 0 <= i < |strs| ==> vs[i] == Str(strs[i])
  {
    if strs == [] then [] else [Str(strs[0])] + Strs(strs[1..])
  }

  /** The tail of a well-formed tree is well-formed. */
  lemma TailWellFormed(tree: seq<Segment>)
    requires WellFormed(tree) && tree != []
    ensures WellFormed(tree[1..])
  {
    forall i | 0 <= i < |tree[1..]| && tree[1..][i].Dir? ensures IsConversion(tree[1..][i].conv) {
      assert tree[1..][i] == tree[i + 1];
    }
  }

  /** An implicit placeholder renders `argv[cursor]` and moves the cursor on by one. */
  lemma ImplicitStep(tree: seq<Segment>, argv: seq<Value>, cursor: nat, s: string)
    requires WellFormed(tree) && tree != [] && tree[0].Dir? && tree[0].arg.Next?
    requires RenderDirective(tree[0], Arg(argv, cursor)) == Ok(s)
    ensures WellFormed(tree[1..])
    ensures RenderFrom(tree, argv, cursor) == Prefixed(s, RenderFrom(tree[1..], argv, cursor + 1))
  {
    TailWellFormed(tree);
  }

  /** A positional placeholder `n$` renders `argv[n]` and leaves the cursor where it is. */
  lemma PositionalStep(tree: seq<Segment>, argv: seq<Value>, cursor: nat, s: string)
    requires WellFormed(tree) && tree != [] && tree[0].Dir? && tree[0].arg.Position?
    requires RenderDirective(tree[0], Arg(argv, tree[0].arg.index)) == Ok(s)
    ensures WellFormed(tree[1..])
    ensures RenderFrom(tree, argv, cursor) == Prefixed(s, RenderFrom(tree[1..], argv, cursor))
  {
    TailWellFormed(tree);
  }

  /** `k` "%s" placeholders in a row. */
  function PlainStrings(k: nat): (tree: seq<Segment>)
    ensures |tree| == k && WellFormed(tree)
    ensures forall i :: 0 <= i < k ==> tree[i] == PlainString
  {
    if k == 0 then [] else [PlainString] + PlainStrings(k - 1)
  }

  /** Consecutive "%s" placeholders take the arguments in order, one each. */
  lemma {:induction false} ImplicitArgumentsInOrder(strs: seq<string>, cursor: nat)
    requires cursor <= |strs|
    ensures RenderFrom(PlainStrings(|strs| - cursor), Strs(strs), cursor) == Ok(Concat(strs[cursor..]))
    decreases |strs| - cursor
  {
    if cursor < |strs| {
      PlainStringStep(strs, cursor);
      ImplicitArgumentsInOrder(strs, cursor + 1);
      ConcatStep(strs, cursor);
    } else {
      assert strs[cursor..] == [];
    }
  }

  /** The first of the remaining "%s" placeholders writes the argument at
      the cursor, and the rest go on from the next one. */
  lemma PlainStringStep(strs: seq<string>, cursor: nat)
    requires cursor < |strs|
    ensures RenderFrom(PlainStrings(|strs| - cursor), Strs(strs), cursor)
         == Prefixed(strs[cursor], RenderFrom(PlainStrings(|strs| - (cursor + 1)), Strs(strs), cursor + 1))
  {
    var tree := PlainStrings(|strs| - cursor);
    var s := strs[cursor];
    var argv := Strs(strs);
    assert Arg(argv, cursor) == Str(s);
    StringWrites(PlainString, s);
    ImplicitStep(tree, argv, cursor, s);
    assert tree[1..] == PlainStrings(|strs| - (cursor + 1));
  }

  lemma ConcatStep(strs: seq<string>, cursor: nat)
    requires cursor < |strs|
    ensures Concat(strs[cursor..]) == strs[cursor] + Concat(strs[cursor + 1..])
  {
    assert strs[cursor..] == [strs[cursor]] + strs[cursor + 1..];
    ConcatCons(strs[cursor], strs[cursor + 1..]);
  }

  /** A plain "%d" on an integer below 10^21 writes its decimal string. */
  lemma PlainDecimal(d: Segment, n: int)
    requires DecimalDirective(d, false, NoPad, false, None) && Abs(n) < PlainLimit
    ensures RenderDirective(d, Num(Finite(n as real))) == Ok(IntToString(n))
  {
    IntegerDirective(d, n);
    IntegerText(n);
  }

  /** A template of one implicit placeholder writes what that placeholder
      writes for the first argument. */
  lemma LoneImplicitRenders(d: Segment, argv: seq<Value>, s: string)
    requires d.Dir? && IsConversion(d.conv) && d.arg.Next? && RenderDirective(d, Arg(argv, 0)) == Ok(s)
    ensures WellFormed([d])
    ensures RenderFrom([d], argv, 0) == Ok(s)
  {
    ImplicitStep([d], argv, 0, s);
    assert [d][1..] == [];
    assert s + "" == s;
  }

  /** A literal renders as itself, whatever the arguments. */
  lemma LiteralRenders(t: string, argv: seq<Value>, cursor: nat)
    ensures WellFormed([Lit(t)])
    ensures RenderFrom([Lit(t)], argv, cursor) == Ok(t)
  {
    assert [Lit(t)][1..] == [];
    assert t + "" == t;
  }

  /** A "%s" between two literals writes its string argument between them. */
  lemma StringBetweenLiteralsRenders(a: string, b: string, s: string)
    ensures WellFormed([Lit(a), PlainString, Lit(b)])
    ensures RenderFrom([Lit(a), PlainString, Lit(b)], [Str(s)], 0) == Ok(a + s + b)
  {
    var tree := [Lit(a), PlainString, Lit(b)];
    assert tree[1..] == [PlainString, Lit(b)] && tree[1..][1..] == [Lit(b)];
    StringWrites(PlainString, s);
    ImplicitStep(tree[1..], [Str(s)], 0, s);
    LiteralRenders(b, [Str(s)], 1);
    assert a + (s + b) == a + s + b;
  }

  /** "%1$s" reads argv[1], the second argument: the rest-argument array does
      not hold the template. */
  lemma PositionalReadsNextIndex(d: Segment, a: string, b: string)
    requires d.Dir? && d.arg == Position(1) && d.conv == 's' && d.width.None? && d.precision.None?
    ensures RenderFrom([d], [Str(a), Str(b)], 0) == Ok(b)
  {
    StringWrites(d, b);
    PositionalStep([d], [Str(a), Str(b)], 0, b);
    assert [d][1..] == [];
    assert b + "" == b;
  }

  /** A key path reads nested own properties of the cursor's argument. */
  lemma KeyPathExample(name: string)
    ensures Walk(Obj([("user", Obj([("name", Str(name))]))]), ["user", "name"]) == Ok(Str(name))
  {
    var inner := Obj([("name", Str(name))]);
    var outer := Obj([("user", inner)]);
    assert FieldIndex(outer.fields, "user") == Some(0);
    assert FieldIndex(inner.fields, "name") == Some(0);
    assert ["user", "name"][1..] == ["name"];
  }

  /** The walk reaches `keys[i]` on a value that is neither undefined nor
      null and has no own property `keys[i]`: every key before it was found. */
  predicate AbsentAt(v: Value, keys: seq<string>, i: nat) {
    i < |keys| && Walk(v, keys[..i]).Ok?
    && var w := Walk(v, keys[..i]).value;
    !w.Undefined? && !w.Null? && !HasOwn(w, keys[i])
  }

  /** The walk fails on `key`: it is the key at some position where it is absent. */
  predicate MissingAt(v: Value, keys: seq<string>, key: string) {
    exists i :: 0 <= i < |keys| && AbsentAt(v, keys, i) && keys[i] == key
  }

  /** A key the walk finds absent raises the missing-property error naming
      that very key. */
  lemma {:induction false} AbsentKeyIsMissing(v: Value, keys: seq<string>, i: nat)
    requires AbsentAt(v, keys, i)
    ensures Walk(v, keys) == Err(MissingProperty(keys[i]))
    decreases i
  {
    if i > 0 {
      assert keys[..i][0] == keys[0];
      assert keys[..i][1..] == keys[1..][..i - 1];
      AbsentKeyIsMissing(Get(v, keys[0]), keys[1..], i - 1);
    }
  }

  /** Conversely, a missing-property error from the walk names a key that
      the walk found absent. */
  lemma {:induction false} MissingKeyWasAbsent(v: Value, keys: seq<string>)
    requires Walk(v, keys).Err? && Walk(v, keys).error.MissingProperty?
    ensures MissingAt(v, keys, Walk(v, keys).error.key)
    decreases |keys|
  {
    if !HasOwn(v, keys[0]) {
      assert keys[..0] == [];
      assert AbsentAt(v, keys, 0);
    } else {
      var w := Get(v, keys[0]);
      MissingKeyWasAbsent(w, keys[1..]);
      var i :| 0 <= i < |keys[1..]| && AbsentAt(w, keys[1..], i) && keys[1..][i] == Walk(w, keys[1..]).error.key;
      assert keys[..i + 1][1..] == keys[1..][..i];
      assert AbsentAt(v, keys, i + 1);
    }
  }

  /** A named placeholder whose walk from the cursor's argument finds
      `keys[i]` absent stops the format with that key's error. */
  lemma NamedPlaceholderMissingKey(tree: seq<Segment>, argv: seq<Value>, cursor: nat, i: nat)
    requires WellFormed(tree) && tree != [] && tree[0].Dir? && tree[0].arg.Path?
    requires AbsentAt(Arg(argv, cursor), tree[0].arg.keys, i)
    ensures RenderFrom(tree, argv, cursor) == Err(MissingProperty(tree[0].arg.keys[i]))
  {
    AbsentKeyIsMissing(Arg(argv, cursor), tree[0].arg.keys, i);
  }

  /** The cursor when the format loop reaches `tree[i]`: one more for each
      implicit placeholder before it. */
  function CursorAt(tree: seq<Segment>, cursor: nat, i: nat): (c: nat)
    requires i <= |tree|
    ensures c >= cursor
    decreases i
  {
    if i == 0 then cursor
    else CursorAt(tree[1..], if tree[0].Dir? && tree[0].arg.Next? then cursor + 1 else cursor, i - 1)
  }

  /** A missing property raises the error of a named placeholder of the
      template whose walk, from the argument at the cursor there, found
      that key absent. */
  lemma {:induction false} MissingKeyIsNamed(tree: seq<Segment>, argv: seq<Value>, cursor: nat, key: string)
    requires WellFormed(tree)
    requires RenderFrom(tree, argv, cursor) == Err(MissingProperty(key))
    ensures exists i ::
      0 <= i < |tree| && tree[i].Dir? && tree[i].arg.Path?
      && MissingAt(Arg(argv, CursorAt(tree, cursor, i)), tree[i].arg.keys, key)
    decreases |tree|
  {
    var seg := tree[0];
    TailWellFormed(tree);
    if seg.Lit? {
      MissingKeyIsNamed(tree[1..], argv, cursor, key);
      var i :| 0 <= i < |tree[1..]| && tree[1..][i].Dir? && tree[1..][i].arg.Path?
        && MissingAt(Arg(argv, CursorAt(tree[1..], cursor, i)), tree[1..][i].arg.keys, key);
      assert tree[i + 1] == tree[1..][i];
      assert CursorAt(tree, cursor, i + 1) == CursorAt(tree[1..], cursor, i);
    } else {
      var resolved := Resolve(seg.arg, argv, cursor);
      if resolved.Err? {
        assert seg.arg.Path?;
        MissingKeyWasAbsent(Arg(argv, cursor), seg.arg.keys);
        assert CursorAt(tree, cursor, 0) == cursor;
      } else {
        var s := RenderDirective(seg, resolved.value.0);
        if s.Ok? {
          var next := resolved.value.1;
          MissingKeyIsNamed(tree[1..], argv, next, key);
          var i :| 0 <= i < |tree[1..]| && tree[1..][i].Dir? && tree[1..][i].arg.Path?
            && MissingAt(Arg(argv, CursorAt(tree[1..], next, i)), tree[1..][i].arg.keys, key);
          assert tree[i + 1] == tree[1..][i];
          assert CursorAt(tree, cursor, i + 1) == CursorAt(tree[1..], next, i);
        }
      }
    }
  }
}
