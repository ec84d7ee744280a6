/** What the placeholder pattern of TSSprintf reads. Every placeholder the
    pattern can produce has a printed form, and the pattern reads exactly
    that placeholder back from it, whatever text follows: each group holds
    the value printed for it. */
module PatternLaws {
  import opened Wrappers
  import opened Errors
  import opened JsNumbers
  import opened Template
  import TemplateLaws

  // ---------------------------------------------------------------------
  // The printed form of a placeholder

  /** `N$`, `(name)` or nothing. */
  function ArgText(position: Option<nat>, name: Option<string>): string {
    if position.Some? then Digits(position.value, 10) + "$"
    else if name.Some? then "(" + name.value + ")"
    else ""
  }

  /** A one-character flag when it is set. */
  function FlagText(on: bool, c: char): string {
    if on then [c] else ""
  }

  function PadText(pad: Pad): string {
    match pad
    case NoPad => ""
    case ZeroPad => "0"
    case QuotedPad(c) => ['\'', c]
  }

  function NumberText(n: Option<nat>): string {
    if n.Some? then Digits(n.value, 10) else ""
  }

  function PrecisionText(n: Option<nat>): string {
    if n.Some? then "." + Digits(n.value, 10) else ""
  }

  /** The options between the argument group and the conversion. */
  function OptionsText(p: Placeholder): string {
    FlagText(p.plus, '+') + PadText(p.pad) + FlagText(p.left, '-') + NumberText(p.width) + PrecisionText(p.precision)
  }

  function PlaceholderText(p: Placeholder): string {
    "%" + ArgText(p.position, p.name) + OptionsText(p) + [p.conv]
  }

  /** The placeholders the pattern can match: a conversion character; a
      position from 1 or a non-empty name free of ')', not both; a quoted
      pad other than '$'; and no bare width 0, which would read as the `0`
      flag. */
  predicate Printable(p: Placeholder) {
    Readable(p)
    && !(p.position.Some? && p.name.Some?)
    && (p.position.Some? ==> p.position.value >= 1)
    && (p.name.Some? ==> p.name.value != "" && ')' !in p.name.value)
  }

  /** The part of `Printable` about the options and the conversion. */
  predicate Readable(p: Placeholder) {
    IsConversion(p.conv)
    && (p.pad.QuotedPad? ==> p.pad.c != '$')
    && !(p.width == Some(0) && p.pad.NoPad? && !p.left)
  }

  // ---------------------------------------------------------------------
  // Reading the groups back

  /** `t` spells `n` in decimal without a leading zero, or is empty when
      there is no number. */
  predicate Numeral(t: string, n: Option<nat>) {
    if n.None? then t == []
    else t != [] && AllDigits(t, 10) && ValueOf(t, 10) == n.value && (n.value > 0 ==> t[0] != '0')
  }

  lemma NumberTextNumeral(n: Option<nat>)
    ensures Numeral(NumberText(n), n)
  {
    if n.Some? {
      DigitsRoundTrip(n.value, 10);
    }
  }

  lemma ConversionIsLetter(c: char)
    requires IsConversion(c)
    ensures 'a' <= c <= 'z' || 'A' <= c <= 'Z'
  {
  }

  lemma CloseParenAt(s: string, i: nat, j: nat)
    requires i <= j < |s| && s[j] == ')'
    requires forall k :: i <= k < j ==> s[k] != ')'
    ensures CloseParen(s, i) == j
    decreases j - i
  {
    if i < j {
      CloseParenAt(s, i + 1, j);
    }
  }

  // The next three lemmas read one group of `s == pre + (t + u)` at
  // `|pre|`, where `t` is the group's printed form and `u` what follows it.

  /** A numeral is read back, up to the first non-digit. */
  lemma NumberAtNumeral(s: string, pre: string, t: string, n: Option<nat>, u: string)
    requires s == pre + (t + u) && Numeral(t, n)
    requires u != [] && !IsDigit(u[0])
    ensures NumberAt(s, |pre|) == (n, |pre| + |t|)
  {
    var i, j := |pre|, |pre| + |t|;
    assert s[i..j] == t && s[j] == u[0];
    forall k | i <= k < j
      ensures IsDigit(s[k])
    {
      assert s[k] == t[k - i];
    }
    TemplateLaws.RunEndAt(s, i, j);
  }

  lemma PadGroupText(s: string, pre: string, pad: Pad, u: string)
    requires s == pre + (PadText(pad) + u) && u != []
    requires pad.QuotedPad? ==> pad.c != '$'
    requires pad.NoPad? ==> u[0] != '0' && u[0] != '\''
    ensures PadGroup(s, |pre|) == (pad, |pre| + |PadText(pad)|)
  {
    assert s[|pre|] == (PadText(pad) + u)[0];
    if pad.QuotedPad? {
      assert s[|pre| + 1] == pad.c;
    }
  }

  // ---------------------------------------------------------------------
  // Each group of a printed placeholder, at its own offset

  /** Where the argument group ends and each option starts in
      `PlaceholderText(p)`. */
  function ArgEnd(p: Placeholder): nat {
    1 + |ArgText(p.position, p.name)|
  }

  function PadStart(p: Placeholder): nat {
    ArgEnd(p) + |FlagText(p.plus, '+')|
  }

  function LeftAt(p: Placeholder): nat {
    PadStart(p) + |PadText(p.pad)|
  }

  function WidthStart(p: Placeholder): nat {
    LeftAt(p) + |FlagText(p.left, '-')|
  }

  function PrecisionStart(p: Placeholder): nat {
    WidthStart(p) + |NumberText(p.width)|
  }

  function ConvAt(p: Placeholder): nat {
    PrecisionStart(p) + |PrecisionText(p.precision)|
  }

  lemma LengthIsConvAt(p: Placeholder)
    ensures |PlaceholderText(p)| == ConvAt(p) + 1
  {
  }

  /** The text after the width: precision, conversion and the rest. */
  lemma AfterWidth(p: Placeholder, rest: string)
    requires IsConversion(p.conv)
    ensures var v := PrecisionText(p.precision) + ([p.conv] + rest);
      v != [] && !IsDigit(v[0]) && v[0] != '$' && v[0] != '(' && v[0] != '-' && v[0] != '+' && v[0] != '\''
  {
    ConversionIsLetter(p.conv);
  }

  // Each cut below splits the printed text before one of its groups: the
  // text is `("%" + a + (plus + pad + left + width + precision) + [c]) + rest`.

  lemma CutArg(a: string, o: string, c: char, rest: string)
    ensures ("%" + a + o + [c]) + rest == "%" + (a + (o + ([c] + rest)))
  {
  }

  lemma CutPlus(a: string, plus: string, pad: string, left: string, width: string, precision: string, c: char, rest: string)
    ensures ("%" + a + (plus + pad + left + width + precision) + [c]) + rest
         == ("%" + a) + (plus + (pad + (left + (width + (precision + ([c] + rest))))))
  {
  }

  lemma CutPad(a: string, plus: string, pad: string, left: string, width: string, precision: string, c: char, rest: string)
    ensures ("%" + a + (plus + pad + left + width + precision) + [c]) + rest
         == ("%" + a + plus) + (pad + (left + (width + (precision + ([c] + rest)))))
  {
  }

  lemma CutLeft(a: string, plus: string, pad: string, left: string, width: string, precision: string, c: char, rest: string)
    ensures ("%" + a + (plus + pad + left + width + precision) + [c]) + rest
         == ("%" + a + plus + pad) + (left + (width + (precision + ([c] + rest))))
  {
  }

  lemma CutWidth(a: string, plus: string, pad: string, left: string, width: string, precision: string, c: char, rest: string)
    ensures ("%" + a + (plus + pad + left + width + precision) + [c]) + rest
         == ("%" + a + plus + pad + left) + (width + (precision + ([c] + rest)))
  {
  }

  lemma CutPrecision(a: string, plus: string, pad: string, left: string, width: string, precision: string, c: char, rest: string)
    ensures ("%" + a + (plus + pad + left + width + precision) + [c]) + rest
         == ("%" + a + plus + pad + left + width) + (precision + ([c] + rest))
  {
  }

  lemma CutPrecisionDigits(a: string, plus: string, pad: string, left: string, width: string, digits: string, c: char, rest: string)
    ensures ("%" + a + (plus + pad + left + width + ("." + digits)) + [c]) + rest
         == ("%" + a + plus + pad + left + width + ".") + (digits + ([c] + rest))
  {
  }

  lemma CutConv(a: string, o: string, c: char, rest: string)
    ensures ("%" + a + o + [c]) + rest == ("%" + a + o) + ([c] + rest)
  {
  }

  /** The conversion character sits right after the options. */
  lemma ConvPrinted(p: Placeholder, rest: string)
    ensures var s := PlaceholderText(p) + rest;
      ConvAt(p) < |s| && s[ConvAt(p)] == p.conv
  {
    CutConv(ArgText(p.position, p.name), OptionsText(p), p.conv, rest);
  }

  /** The `+` flag is read where it is printed, and nothing else there reads
      as one. */
  lemma PlusPrinted(p: Placeholder, rest: string)
    requires IsConversion(p.conv)
    ensures var s := PlaceholderText(p) + rest;
      ArgEnd(p) < |s| && (s[ArgEnd(p)] == '+') == p.plus
  {
    var plus, pad, left := FlagText(p.plus, '+'), PadText(p.pad), FlagText(p.left, '-');
    var width, precision := NumberText(p.width), PrecisionText(p.precision);
    AfterWidth(p, rest);
    CutPlus(ArgText(p.position, p.name), plus, pad, left, width, precision, p.conv, rest);
    if p.width.Some? {
      NumberTextNumeral(p.width);
    }
  }

  /** The same for the `-` flag. */
  lemma LeftPrinted(p: Placeholder, rest: string)
    requires IsConversion(p.conv)
    ensures var s := PlaceholderText(p) + rest;
      LeftAt(p) < |s| && (s[LeftAt(p)] == '-') == p.left
  {
    var plus, pad, left := FlagText(p.plus, '+'), PadText(p.pad), FlagText(p.left, '-');
    var width, precision := NumberText(p.width), PrecisionText(p.precision);
    AfterWidth(p, rest);
    CutLeft(ArgText(p.position, p.name), plus, pad, left, width, precision, p.conv, rest);
    if p.width.Some? {
      NumberTextNumeral(p.width);
    }
  }

  // The next three lemmas read one group of the printed text, given as its
  // pieces; the `...Printed` lemmas after them supply the pieces of `p`.

  lemma PadIn(s: string, a: string, plus: string, pad: Pad, left: string, width: string, precision: string, c: char, rest: string, i: nat)
    requires s == ("%" + a + (plus + PadText(pad) + left + width + precision) + [c]) + rest
    requires pad.QuotedPad? ==> pad.c != '$'
    requires var v := left + (width + (precision + ([c] + rest)));
      pad.NoPad? ==> v[0] != '0' && v[0] != '\''
    requires i == 1 + |a| + |plus|
    ensures PadGroup(s, i) == (pad, i + |PadText(pad)|)
  {
    CutPad(a, plus, PadText(pad), left, width, precision, c, rest);
    PadGroupText(s, "%" + a + plus, pad, left + (width + (precision + ([c] + rest))));
  }

  lemma WidthIn(s: string, a: string, plus: string, pad: string, left: string, width: string, precision: string, c: char, rest: string, n: Option<nat>, i: nat)
    requires s == ("%" + a + (plus + pad + left + width + precision) + [c]) + rest
    requires Numeral(width, n) && !IsDigit((precision + ([c] + rest))[0])
    requires i == 1 + |a| + |plus| + |pad| + |left|
    ensures NumberAt(s, i) == (n, i + |width|)
  {
    CutWidth(a, plus, pad, left, width, precision, c, rest);
    NumberAtNumeral(s, "%" + a + plus + pad + left, width, n, precision + ([c] + rest));
  }

  lemma NoPrecisionIn(s: string, a: string, plus: string, pad: string, left: string, width: string, c: char, rest: string, i: nat)
    requires s == ("%" + a + (plus + pad + left + width + "") + [c]) + rest
    requires c != '.'
    requires i == 1 + |a| + |plus| + |pad| + |left| + |width|
    ensures PrecisionGroup(s, i) == (None, i)
  {
    CutPrecision(a, plus, pad, left, width, "", c, rest);
    assert s[i] == c;
  }

  lemma PrecisionDigitsIn(s: string, a: string, plus: string, pad: string, left: string, width: string, digits: string, c: char, rest: string, n: Option<nat>, i: nat)
    requires s == ("%" + a + (plus + pad + left + width + ("." + digits)) + [c]) + rest
    requires Numeral(digits, n) && n.Some? && !IsDigit(c)
    requires i == 1 + |a| + |plus| + |pad| + |left| + |width|
    ensures PrecisionGroup(s, i) == (n, i + 1 + |digits|)
  {
    CutPrecisionDigits(a, plus, pad, left, width, digits, c, rest);
    var pre := "%" + a + plus + pad + left + width + ".";
    NumberAtNumeral(s, pre, digits, n, [c] + rest);
    assert s[i] == pre[i] == '.';
    assert s[i + 1] == digits[0] && DigitOf(digits[0]) < 10;
  }

  lemma PadPrinted(p: Placeholder, rest: string)
    requires Readable(p)
    ensures PadGroup(PlaceholderText(p) + rest, PadStart(p)) == (p.pad, LeftAt(p))
  {
    var left, width, precision := FlagText(p.left, '-'), NumberText(p.width), PrecisionText(p.precision);
    AfterWidth(p, rest);
    NumberTextNumeral(p.width);
    PadIn(PlaceholderText(p) + rest, ArgText(p.position, p.name), FlagText(p.plus, '+'), p.pad, left, width, precision, p.conv, rest, PadStart(p));
  }

  lemma WidthPrinted(p: Placeholder, rest: string)
    requires IsConversion(p.conv)
    ensures NumberAt(PlaceholderText(p) + rest, WidthStart(p)) == (p.width, PrecisionStart(p))
  {
    AfterWidth(p, rest);
    NumberTextNumeral(p.width);
    WidthIn(PlaceholderText(p) + rest, ArgText(p.position, p.name), FlagText(p.plus, '+'), PadText(p.pad), FlagText(p.left, '-'),
      NumberText(p.width), PrecisionText(p.precision), p.conv, rest, p.width, WidthStart(p));
  }

  lemma PrecisionPrinted(p: Placeholder, rest: string)
    requires !IsDigit(p.conv) && p.conv != '.'
    ensures PrecisionGroup(PlaceholderText(p) + rest, PrecisionStart(p)) == (p.precision, ConvAt(p))
  {
    var a, plus, pad, left := ArgText(p.position, p.name), FlagText(p.plus, '+'), PadText(p.pad), FlagText(p.left, '-');
    var width := NumberText(p.width);
    if p.precision.Some? {
      NumberTextNumeral(p.precision);
      PrecisionDigitsIn(PlaceholderText(p) + rest, a, plus, pad, left, width, NumberText(p.precision), p.conv, rest, p.precision, PrecisionStart(p));
    } else {
      NoPrecisionIn(PlaceholderText(p) + rest, a, plus, pad, left, width, p.conv, rest, PrecisionStart(p));
    }
  }

  /** What follows the width is neither a digit, nor '$', nor '('. */
  lemma AfterWidthPrinted(p: Placeholder, rest: string)
    requires IsConversion(p.conv)
    ensures var s := PlaceholderText(p) + rest;
      PrecisionStart(p) < |s| && !IsDigit(s[PrecisionStart(p)])
      && s[PrecisionStart(p)] != '$' && s[PrecisionStart(p)] != '('
  {
    var a, plus, pad, left := ArgText(p.position, p.name), FlagText(p.plus, '+'), PadText(p.pad), FlagText(p.left, '-');
    var width, precision := NumberText(p.width), PrecisionText(p.precision);
    AfterWidth(p, rest);
    CutPrecision(a, plus, pad, left, width, precision, p.conv, rest);
  }

  /** The argument group read back from its printed form. */
  lemma ArgGroupPrinted(p: Placeholder, rest: string)
    requires Printable(p)
    ensures ArgGroup(PlaceholderText(p) + rest) == (p.position, p.name, ArgEnd(p))
  {
    var u := OptionsText(p) + ([p.conv] + rest);
    CutArg(ArgText(p.position, p.name), OptionsText(p), p.conv, rest);
    if p.position.Some? {
      PositionPrinted(PlaceholderText(p) + rest, p.position.value, u);
    } else if p.name.Some? {
      NamePrinted(PlaceholderText(p) + rest, p.name.value, u);
    } else {
      PlusPrinted(p, rest);
      PadPrinted(p, rest);
      LeftPrinted(p, rest);
      WidthPrinted(p, rest);
      AfterWidthPrinted(p, rest);
      ArgAbsent(PlaceholderText(p) + rest, p);
    }
  }

  lemma PositionPrinted(s: string, n: nat, u: string)
    requires s == "%" + ((Digits(n, 10) + "$") + u) && n >= 1
    ensures ArgGroup(s) == (Some(n), None, 1 + |Digits(n, 10)| + 1)
  {
    var d := Digits(n, 10);
    NumberTextNumeral(Some(n));
    assert s == "%" + (d + ("$" + u));
    NumberAtNumeral(s, "%", d, Some(n), "$" + u);
  }

  lemma NamePrinted(s: string, name: string, u: string)
    requires s == "%" + (("(" + name + ")") + u) && name != [] && ')' !in name
    ensures ArgGroup(s) == (None, Some(name), 1 + |name| + 2)
  {
    var close := 2 + |name|;
    assert s == "%(" + (name + (")" + u));
    assert s[1] == '(' && s[close] == ')';
    forall k | 2 <= k < close
      ensures s[k] != ')'
    {
      assert s[k] == name[k - 2];
    }
    CloseParenAt(s, 2, close);
    assert s[2..close] == name;
  }

  /** Without an argument group the options start at 1: neither a width
      followed by '$' nor a '(' can be read there. */
  lemma ArgAbsent(s: string, p: Placeholder)
    requires Printable(p) && p.position.None? && p.name.None?
    requires 1 < |s| && (s[1] == '+') == p.plus
    requires PadGroup(s, PadStart(p)) == (p.pad, LeftAt(p))
    requires LeftAt(p) < |s| && (s[LeftAt(p)] == '-') == p.left
    requires NumberAt(s, WidthStart(p)) == (p.width, PrecisionStart(p))
    requires PrecisionStart(p) < |s| && !IsDigit(s[PrecisionStart(p)]) && s[PrecisionStart(p)] != '$' && s[PrecisionStart(p)] != '('
    ensures ArgGroup(s) == (None, None, 1)
  {
  }

  // ---------------------------------------------------------------------
  // Putting the groups together

  /** `OptionsAt` from what each of its groups reads. */
  lemma OptionsFromGroups(s: string, i: nat, i2: nat, i3: nat, i4: nat, i5: nat, o: Options)
    requires i < |s| && (s[i] == '+') == o.plus && i2 == (if o.plus then i + 1 else i) && i2 <= |s|
    requires PadGroup(s, i2) == (o.pad, i3)
    requires i3 < |s| && (s[i3] == '-') == o.left && i4 == (if o.left then i3 + 1 else i3) && i4 <= |s|
    requires NumberAt(s, i4) == (o.width, i5)
    requires PrecisionGroup(s, i5) == (o.precision, o.end)
    ensures OptionsAt(s, i) == o
  {
  }

  /** `MatchPlaceholder` from what its argument group and options read. */
  lemma MatchFromGroups(s: string, p: Placeholder, i: nat, e: nat, length: nat)
    requires s != [] && s[0] == '%' && IsConversion(p.conv)
    requires ArgGroup(s) == (p.position, p.name, i)
    requires OptionsAt(s, i) == Options(p.plus, p.pad, p.left, p.width, p.precision, e)
    requires e < |s| && s[e] == p.conv && length == e + 1
    ensures MatchPlaceholder(s) == Some(p.(length := length))
  {
  }

  /** The pattern reads every printable placeholder back from its printed
      form, whatever text follows it. */
  lemma MatchPrinted(p: Placeholder, rest: string)
    requires Printable(p)
    ensures MatchPlaceholder(PlaceholderText(p) + rest) == Some(p.(length := |PlaceholderText(p)|))
  {
    var s := PlaceholderText(p) + rest;
    LengthIsConvAt(p);
    ArgGroupPrinted(p, rest);
    ConvPrinted(p, rest);
    PlusPrinted(p, rest);
    LeftPrinted(p, rest);
    PadPrinted(p, rest);
    WidthPrinted(p, rest);
    ConversionIsLetter(p.conv);
    PrecisionPrinted(p, rest);
    var o := Options(p.plus, p.pad, p.left, p.width, p.precision, ConvAt(p));
    OptionsFromGroups(s, ArgEnd(p), PadStart(p), LeftAt(p), WidthStart(p), PrecisionStart(p), o);
    MatchFromGroups(s, p, ArgEnd(p), ConvAt(p), |PlaceholderText(p)|);
  }

  /** A placeholder the pattern matches never starts with "%%". */
  lemma MatchNotEscape(s: string)
    requires MatchPlaceholder(s).Some?
    ensures |s| >= 2 && s[0] == '%' && s[1] != '%'
  {
  }

  /** The scan step on a text that starts with a match. */
  lemma PeelFromMatch(s: string, m: Placeholder)
    requires MatchPlaceholder(s) == Some(m) && ArgOf(m).Ok?
    ensures Peel(s) == Ok((Dir(s[..m.length], ArgOf(m).value, m.plus, m.pad, m.left, m.width, m.precision, m.conv), m.length))
  {
    MatchNotEscape(s);
    assert TextEnd(s, 0) == 0;
  }

  /** The scan step takes a printed placeholder whose argument group reads
      as a whole, and gives the directive of its groups. */
  lemma PeelPrinted(p: Placeholder, rest: string)
    requires Printable(p) && ArgOf(p).Ok?
    ensures var t := PlaceholderText(p);
      Peel(t + rest) == Ok((Dir(t, ArgOf(p).value, p.plus, p.pad, p.left, p.width, p.precision, p.conv), |t|))
  {
    var t := PlaceholderText(p);
    var m := p.(length := |t|);
    MatchPrinted(p, rest);
    assert ArgOf(m) == ArgOf(p);
    PeelFromMatch(t + rest, m);
    assert (t + rest)[..|t|] == t;
  }

  /** A '%' that neither escapes a '%' nor starts a match is an unexpected
      placeholder, whatever follows. */
  lemma NoMatchIsUnexpected(s: string)
    requires s != [] && s[0] == '%' && !(|s| >= 2 && s[1] == '%') && MatchPlaceholder(s).None?
    ensures Parse(s) == Err(UnexpectedPlaceholder)
  {
    assert TextEnd(s, 0) == 0;
  }
}
