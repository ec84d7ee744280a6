/** TSSprintf.format: renders a parse tree against the argument list. Each
    placeholder reads its argument (by key path, by position or from the
    cursor), converts it, then gets its sign and padding. */
module Render {
  import opened Wrappers
  import opened Errors
  import opened Strings
  import opened JsNumbers
  import opened JsValues
  import opened Json
  import opened Template

  /** `argv[i]`: undefined past the end. */
  function Arg(argv: seq<Value>, i: nat): Value {
    if i < |argv| then argv[i] else Undefined
  }

  /** The key walk of a named placeholder: each key must be an own property
      of the value reached so far; on undefined or null the call to
      `hasOwnProperty` itself fails. */
  function Walk(v: Value, keys: seq<string>): (r: Result<Value, Error>)
    ensures r.Err? ==> keys != [] && (r.error.TypeError? || r.error.MissingProperty?)
    ensures r.Err? && r.error.MissingProperty? ==> r.error.key in keys
    decreases |keys|
  {
    if keys == [] then Ok(v)
    else if v.Undefined? || v.Null? then Err(TypeError("hasOwnProperty"))
    else if !HasOwn(v, keys[0]) then Err(MissingProperty(keys[0]))
    else Walk(Get(v, keys[0]), keys[1..])
  }

  /** The argument a placeholder reads and the cursor after it. A key path
      starts at `argv[cursor]` without moving the cursor; `n$` reads
      `argv[n]` of the rest-argument array; otherwise the cursor advances. */
  function Resolve(arg: ArgRef, argv: seq<Value>, cursor: nat): (r: Result<(Value, nat), Error>)
    ensures r.Ok? ==> r.value.1 == if arg.Next? then cursor + 1 else cursor
    ensures arg.Next? ==> r == Ok((Arg(argv, cursor), cursor + 1))
    ensures arg.Position? ==> r == Ok((Arg(argv, arg.index), cursor))
  {
    match arg
    case Path(keys) =>
      var v :- Walk(Arg(argv, cursor), keys);
      Ok((v, cursor))
    case Position(n) => Ok((Arg(argv, n), cursor))
    case Next => Ok((Arg(argv, cursor), cursor + 1))
  }

  /** `s.substring(0, precision)` when a precision is given. */
  function Truncate(s: string, precision: Option<nat>): (r: string)
    ensures precision.None? ==> r == s
    ensures precision.Some? ==> |r| == (if |s| <= precision.value then |s| else precision.value) && r == s[..|r|]
  {
    if precision.Some? then Prefix(s, precision.value) else s
  }

  /** `parseInt(arg, 10)`: the argument as a string, then its integer prefix. */
  function IntArg(arg: Value): (r: Result<Number, Error>)
    ensures r.Ok? ==> r.value.NaN? || (r.value.Finite? && IsIntegral(r.value.r))
    ensures r.Err? ==> r.error == NotModelled
  {
    var s :- ToStr(arg);
    Ok(ParseInt(s, false))
  }

  /** `parseFloat(arg)`. A number is its own parseFloat(String(x)). */
  function FloatArg(arg: Value): (r: Result<Number, Error>)
    ensures r.Err? ==> r.error == NotModelled
  {
    if arg.Num? then Ok(arg.n)
    else
      var s :- ToStr(arg);
      Ok(ParseFloat(s))
  }

  /** `toUpperCase` on the ASCII text that `toString(16)` writes. */
  function Upper(s: string): (r: string)
    ensures |r| == |s|
    ensures forall i :: 0 <= i < |s| ==> r[i] == if 'a' <= s[i] <= 'z' then (s[i] as int - 32) as char else s[i]
  {
    if s == [] then ""
    else Upper(s[..|s| - 1]) + [if 'a' <= s[|s| - 1] <= 'z' then (s[|s| - 1] as int - 32) as char else s[|s| - 1]]
  }

  /** `String.fromCharCode(k)` for a code unit `k`. A lone surrogate code
      unit is not a character here and becomes U+FFFD. */
  function CharOf(k: nat): (c: char)
    requires k < 0x10000
    ensures (k < 0xD800 || k > 0xDFFF) ==> c as int == k
  {
    if 0xD800 <= k <= 0xDFFF then '\U{FFFD}' else k as char
  }

  /** The conversions that first take `parseInt(arg, 10)`: b, c, d, i, u, x and X. */
  predicate IsIntegerConversion(conv: char) {
    conv == 'b' || conv == 'c' || conv == 'd' || conv == 'i' || conv == 'u' || conv == 'x' || conv == 'X'
  }

  /** The text an integer conversion makes of the integer `n` (or NaN). */
  function IntegerConversion(conv: char, n: Number): (r: Result<string, Error>)
    requires IsIntegerConversion(conv)
    ensures r.Err? ==> r.error == NotModelled
  {
    if conv == 'b' then RadixString(n, 2)
    else if conv == 'c' then Ok([CharOf(ToUint(n, 0x10000))])
    else if conv == 'd' || conv == 'i' then NumberToString(n)
    else if conv == 'u' then Ok(NatToString(ToUint(n, 0x1_0000_0000)))
    else if conv == 'x' then RadixString(n, 16)
    else
      var s :- RadixString(n, 16);
      Ok(Upper(s))
  }

  /** The text e, f and g make of `parseFloat(arg)`. */
  function FloatConversion(conv: char, precision: Option<nat>, x: Number): (r: Result<string, Error>)
    requires conv == 'e' || conv == 'f' || conv == 'g'
    ensures r.Err? ==> r.error == NotModelled || r.error == RangeError
  {
    if conv == 'e' then ToExponential(x, precision)
    else if conv == 'f' then
      if precision.Some? then ToFixed(x, precision.value) else NumberToString(x)
    else
      if precision.Some? then ToPrecision(x, precision.value) else NumberToString(x)
  }

  /** The text j, o, s, t, T and v make of `arg`. */
  function TextConversion(conv: char, width: Option<nat>, precision: Option<nat>, arg: Value): (r: Result<string, Error>)
    requires conv == 'j' || conv == 'o' || conv == 's' || conv == 't' || conv == 'T' || conv == 'v'
    ensures r.Err? ==> IsRuntimeError(r.error)
  {
    if conv == 'j' then
      var json :- Stringify(arg, if width.Some? then width.value else 0);
      Ok(if json.Some? then json.value else "")
    else if conv == 'o' then
      match arg
      case Num(x) => RadixString(x, 8)
      case Undefined => Err(TypeError("toString"))
      case Null => Err(TypeError("toString"))
      case _ => ToStr(arg)
    else if conv == 's' then
      var s :- ToStr(arg);
      Ok(Truncate(s, precision))
    else if conv == 't' then
      Ok(Truncate(if Truthy(arg) then "true" else "false", precision))
    else if conv == 'T' then
      Ok(Truncate(TypeName(arg), precision))
    else
      if arg.Undefined? || arg.Null? then Err(TypeError("valueOf"))
      else if precision.None? then ToStr(arg)
      else if arg.Str? then Ok(Prefix(arg.s, precision.value))
      else Err(TypeError("substring"))
  }

  /** The text the conversion `conv` makes of `arg`, before sign and padding. */
  function Convert(conv: char, width: Option<nat>, precision: Option<nat>, arg: Value): (r: Result<string, Error>)
    requires IsConversion(conv)
    ensures r.Err? ==> IsRuntimeError(r.error)
  {
    if IsIntegerConversion(conv) then
      var n :- IntArg(arg);
      IntegerConversion(conv, n)
    else if conv == 'e' || conv == 'f' || conv == 'g' then
      var x :- FloatArg(arg);
      FloatConversion(conv, precision, x)
    else
      TextConversion(conv, width, precision, arg)
  }

  /** The conversions whose output gets a sign. */
  predicate Signed(conv: char) {
    conv in "diefg"
  }

  /** The text without one leading '+' or '-'. */
  function StripSign(s: string): (r: string)
    ensures r == s || (s != [] && s[0] in "+-" && r == s[1..])
    ensures r != [] ==> r == s[|s| - |r|..]
  {
    if s != [] && (s[0] == '+' || s[0] == '-') then s[1..] else s
  }

  /** The pad character: '0', the character after a quote, or a space. */
  function PadChar(pad: Pad): char {
    match pad
    case ZeroPad => '0'
    case QuotedPad(c) => c
    case NoPad => ' '
  }

  /** The runs of '0', ' ' and '_' of length 0 to 7 that `str_repeat` keeps ready. */
  const ZeroRuns: seq<string> := ["", "0", "00", "000", "0000", "00000", "000000", "0000000"]
  const SpaceRuns: seq<string> := ["", " ", "  ", "   ", "    ", "     ", "      ", "       "]
  const UnderscoreRuns: seq<string> := ["", "_", "__", "___", "____", "_____", "______", "_______"]

  /** `str_repeat(c, n)`: a ready-made run when there is one, otherwise
      `Array(n + 1).join(c)`. Either way, `n` copies of `c`. */
  function StrRepeat(c: char, n: nat): (r: string)
    ensures r == Repeat(c, n)
  {
    if n <= 7 && c in "0 _" then
      var runs := if c == '0' then ZeroRuns else if c == ' ' then SpaceRuns else UnderscoreRuns;
      assert runs[n] == Repeat(c, n) by {
        assert |runs[n]| == n;
        assert forall i :: 0 <= i < n ==> runs[n][i] == c;
      }
      runs[n]
    else Repeat(c, n)
  }

  /** Sign, text and padding laid out for the width: padding after the text
      when left-justified, between sign and digits when the pad character
      is '0', and in front of both otherwise. */
  function Layout(sign: string, text: string, padChar: char, left: bool, width: Option<nat>): (r: string)
    ensures width.None? || width.value <= |sign + text| ==> r == sign + text
    ensures width.Some? && width.value > |sign + text| ==> |r| == width.value
    ensures |r| >= |sign + text|
    ensures left ==> (r[..|sign + text|] == sign + text
      && forall i :: |sign + text| <= i < |r| ==> r[i] == padChar)
    ensures !left && padChar == '0' ==> (r[..|sign|] == sign && r[|r| - |text|..] == text
      && forall i :: |sign| <= i < |r| - |text| ==> r[i] == '0')
    ensures !left && padChar != '0' ==> (r[|r| - |sign + text|..] == sign + text
      && forall i :: 0 <= i < |r| - |sign + text| ==> r[i] == padChar)
  {
    var padLength := if width.Some? then width.value - |sign + text| else 0;
    var pad := if padLength > 0 then StrRepeat(padChar, padLength) else "";
    if left then sign + text + pad
    else if padChar == '0' then sign + pad + text
    else pad + sign + text
  }

  /** One placeholder rendered with its argument. The sign of a [diefg]
      conversion is decided by `arg >= 0` on the argument as given, and
      written only when negative or when `+` is set. */
  function RenderDirective(d: Segment, arg: Value): (r: Result<string, Error>)
    requires d.Dir? && IsConversion(d.conv)
    ensures r.Err? ==> IsRuntimeError(r.error)
  {
    var positive :- if Signed(d.conv) then ToNumber(arg) else Ok(Finite(0.0));
    var text :- Convert(d.conv, d.width, d.precision, arg);
    if d.conv == 'j' then Ok(text)
    else
      var signed := Signed(d.conv) && (!IsNonNegative(positive) || d.plus);
      var sign := if !signed then "" else if IsNonNegative(positive) then "+" else "-";
      Ok(Layout(sign, if signed then StripSign(text) else text, PadChar(d.pad), d.left, d.width))
  }

  /** The output of `tree` from the cursor position `cursor` on. */
  function RenderFrom(tree: seq<Segment>, argv: seq<Value>, cursor: nat): (r: Result<string, Error>)
    requires WellFormed(tree)
    ensures r.Err? ==> IsRuntimeError(r.error) || r.error.MissingProperty?
    decreases |tree|
  {
    if tree == [] then Ok("")
    else
      var seg := tree[0];
      if seg.Lit? then Prefixed(seg.text, RenderFrom(tree[1..], argv, cursor))
      else
        var (arg, next) :- Resolve(seg.arg, argv, cursor);
        var s :- RenderDirective(seg, arg);
        Prefixed(s, RenderFrom(tree[1..], argv, next))
  }

  /** TSSprintf.format(parse_tree, argv). */
  function Render(tree: seq<Segment>, argv: seq<Value>): (r: Result<string, Error>)
    requires WellFormed(tree)
    ensures r.Err? ==> IsRuntimeError(r.error) || r.error.MissingProperty?
  {
    RenderFrom(tree, argv, 0)
  }

  /** The format loop as the source runs it: literal text is copied, each
      placeholder resolves its argument (walking a key path one key at a
      time) and appends its rendering to the output array. */
  method FormatTree(tree: seq<Segment>, argv: seq<Value>) returns (r: Result<string, Error>)
    requires WellFormed(tree)
    ensures r == Render(tree, argv)
  {
    var cursor: nat := 0;
    var output: seq<string> := [];
    PrefixedNothing(Render(tree, argv));
    for i := 0 to |tree|
      invariant Render(tree, argv) == Prefixed(Concat(output), RenderFrom(tree[i..], argv, cursor))
    {
      var seg := tree[i];
      assert tree[i..][1..] == tree[i + 1..];
      if seg.Lit? {
        PrefixedAppend(Concat(output), seg.text, RenderFrom(tree[i + 1..], argv, cursor));
        output := output + [seg.text];
      } else {
        var arg: Value;
        var next := cursor;
        match seg.arg {
          case Path(keys) =>
            arg := Arg(argv, cursor);
            for k := 0 to |keys|
              invariant Walk(Arg(argv, cursor), keys) == Walk(arg, keys[k..])
            {
              assert keys[k..][1..] == keys[k + 1..];
              if arg.Undefined? || arg.Null? {
                return Err(TypeError("hasOwnProperty"));
              }
              if !HasOwn(arg, keys[k]) {
                return Err(MissingProperty(keys[k]));
              }
              arg := Get(arg, keys[k]);
            }
            assert keys[|keys|..] == [];
          case Position(n) =>
            arg := Arg(argv, n);
          case Next =>
            arg := Arg(argv, cursor);
            next := cursor + 1;
        }
        assert Resolve(seg.arg, argv, cursor) == Ok((arg, next));
        var s := RenderDirective(seg, arg);
        if s.Err? {
          return Err(s.error);
        }
        PrefixedAppend(Concat(output), s.value, RenderFrom(tree[i + 1..], argv, next));
        output := output + [s.value];
        cursor := next;
      }
    }
    assert tree[|tree|..] == [];
    assert Concat(output) + "" == Concat(output);
    return Ok(Concat(output));
  }
}
