/** The template scanner of TSSprintf.parse. From the left, a template is cut
    into literal runs, "%%" (a literal "%") and placeholders
      % [N$ | (key.path)] [+] [0 | 'c] [-] [width] [.precision] conversion
    A named key path is split into its keys at parse time. One template may
    not use both a named placeholder and an unnamed one (positional or
    implicit). */
module Template {
  import opened Wrappers
  import opened Errors
  import opened JsNumbers

  /** The pad group: none, the `0` flag, or a quote and the pad character. */
  datatype Pad = NoPad | ZeroPad | QuotedPad(c: char)

  /** Where a placeholder takes its argument from: the implicit cursor, the
      rest-argument at `index` (`index$`), or a key path into an argument. */
  datatype ArgRef = Next | Position(index: nat) | Path(keys: seq<string>)

  /** One node of the parse tree. A placeholder keeps its source text `raw`. */
  datatype Segment =
    | Lit(text: string)
    | Dir(raw: string, arg: ArgRef, plus: bool, pad: Pad, left: bool,
          width: Option<nat>, precision: Option<nat>, conv: char)

  predicate IsConversion(c: char) {
    c in "bcdefgijostTuvxX"
  }

  // ---------------------------------------------------------------------
  // The placeholder pattern

  /** The groups of one placeholder match and its length. */
  datatype Placeholder = Placeholder(
    length: nat, position: Option<nat>, name: Option<string>, plus: bool,
    pad: Pad, left: bool, width: Option<nat>, precision: Option<nat>, conv: char)

  /** The first ')' at or after `i`, or |s|. */
  function CloseParen(s: string, i: nat): (j: nat)
    requires i <= |s|
    ensures i <= j <= |s|
    ensures j < |s| ==> s[j] == ')'
    ensures forall k :: i <= k < j ==> s[k] != ')'
    decreases |s| - i
  {
    if i < |s| && s[i] != ')' then CloseParen(s, i + 1) else i
  }

  /** The optional argument group after the '%' of `s`: `N$` with N not
      starting with 0, or `(name)` with a non-empty name free of ')'. */
  function ArgGroup(s: string): (g: (Option<nat>, Option<string>, nat))
    requires 1 <= |s|
    ensures 1 <= g.2 <= |s|
    ensures g.0.Some? ==> g.1.None?
    ensures g.1.Some? ==> |g.1.value| >= 1 && ')' !in g.1.value
  {
    var digitsEnd := RunEnd(s, 1, 10);
    if 1 < |s| && '1' <= s[1] <= '9' && digitsEnd < |s| && s[digitsEnd] == '$' then
      (Some(ValueOf(s[1..digitsEnd], 10)), None, digitsEnd + 1)
    else if 2 < |s| && s[1] == '(' && s[2] != ')' && CloseParen(s, 2) < |s| then
      var close := CloseParen(s, 2);
      assert forall k :: 0 <= k < close - 2 ==> s[2..close][k] == s[k + 2];
      (None, Some(s[2..close]), close + 1)
    else (None, None, 1)
  }

  /** The pad group at `i`: the `0` flag, or a quote and any character but '$'. */
  function PadGroup(s: string, i: nat): (g: (Pad, nat))
    requires i <= |s|
    ensures i <= g.1 <= |s|
    ensures g.0 == NoPad <==> g.1 == i
  {
    if i < |s| && s[i] == '0' then (ZeroPad, i + 1)
    else if i + 1 < |s| && s[i] == '\'' && s[i + 1] != '$' then (QuotedPad(s[i + 1]), i + 2)
    else (NoPad, i)
  }

  /** The decimal number of the maximal digit run at `i`, if the run is not empty. */
  function NumberAt(s: string, i: nat): (g: (Option<nat>, nat))
    requires i <= |s|
    ensures i <= g.1 <= |s|
    ensures g.0.None? <==> g.1 == i
    ensures g.1 < |s| ==> !IsDigit(s[g.1])
  {
    var j := RunEnd(s, i, 10);
    if j > i then (Some(ValueOf(s[i..j], 10)), j) else (None, i)
  }

  /** The precision group at `i`: a '.' and at least one digit. */
  function PrecisionGroup(s: string, i: nat): (g: (Option<nat>, nat))
    requires i <= |s|
    ensures i <= g.1 <= |s|
    ensures g.0.None? <==> g.1 == i
  {
    if i + 1 < |s| && s[i] == '.' && IsDigit(s[i + 1]) then NumberAt(s, i + 1) else (None, i)
  }

  /** The options of a placeholder from `i`: `+`, the pad group, `-`, width and precision. */
  datatype Options = Options(plus: bool, pad: Pad, left: bool, width: Option<nat>, precision: Option<nat>, end: nat)

  function OptionsAt(s: string, i: nat): (o: Options)
    requires i <= |s|
    ensures i <= o.end <= |s|
  {
    var plus := i < |s| && s[i] == '+';
    var i2 := if plus then i + 1 else i;
    var (pad, i3) := PadGroup(s, i2);
    var left := i3 < |s| && s[i3] == '-';
    var i4 := if left then i3 + 1 else i3;
    var (width, i5) := NumberAt(s, i4);
    var (precision, i6) := PrecisionGroup(s, i5);
    Options(plus, pad, left, width, precision, i6)
  }

  /** The placeholder pattern matched at the start of `s`. Every group is
      greedy, and no group can give back a character that a later group could
      use, so the first match the pattern finds is this one. */
  function MatchPlaceholder(s: string): (m: Option<Placeholder>)
    ensures m.Some? ==> 2 <= m.value.length <= |s| && s[0] == '%'
    ensures m.Some? ==> s[m.value.length - 1] == m.value.conv && IsConversion(m.value.conv)
    ensures m.Some? && m.value.position.Some? ==> m.value.name.None?
  {
    if |s| == 0 || s[0] != '%' then None
    else
      var (position, name, i) := ArgGroup(s);
      var o := OptionsAt(s, i);
      if o.end < |s| && IsConversion(s[o.end]) then
        Some(Placeholder(o.end + 1, position, name, o.plus, o.pad, o.left, o.width, o.precision, s[o.end]))
      else None
  }

  // ---------------------------------------------------------------------
  // Key paths

  predicate IsWordStart(c: char) {
    'a' <= c <= 'z' || 'A' <= c <= 'Z' || c == '_'
  }

  predicate IsWordChar(c: char) {
    IsWordStart(c) || IsDigit(c)
  }

  function WordEnd(s: string, i: nat): (j: nat)
    requires i <= |s|
    ensures i <= j <= |s|
    ensures forall k :: i <= k < j ==> IsWordChar(s[k])
    ensures j < |s| ==> !IsWordChar(s[j])
    decreases |s| - i
  {
    if i < |s| && IsWordChar(s[i]) then WordEnd(s, i + 1) else i
  }

  /** The end of the identifier `[a-z_][a-z_0-9]*` (any letter case) at `i`,
      or `i` when none starts there. */
  function IdentEnd(s: string, i: nat): (j: nat)
    requires i <= |s|
    ensures i <= j <= |s|
    ensures j > i ==> IsWordStart(s[i]) && forall k :: i < k < j ==> IsWordChar(s[k])
    ensures j < |s| ==> !IsWordChar(s[j]) || (j == i && !IsWordStart(s[i]))
  {
    if i < |s| && IsWordStart(s[i]) then WordEnd(s, i + 1) else i
  }

  predicate IsIdent(k: string) {
    |k| > 0 && IsWordStart(k[0]) && forall i :: 0 < i < |k| ==> IsWordChar(k[i])
  }

  predicate IsIndex(k: string) {
    |k| > 0 && forall i :: 0 <= i < |k| ==> IsDigit(k[i])
  }

  /** The accessor that reads `key`: "[key]" for an index, ".key" otherwise. */
  function AccessorText(key: string): string {
    if IsIndex(key) then "[" + key + "]" else "." + key
  }

  /** The accessor `.ident` or `[digits]` at the start of `rest`: its key and length. */
  function AccessorAt(rest: string): (a: Option<(string, nat)>)
    requires |rest| > 0
    ensures a.Some? ==> 0 < a.value.1 <= |rest|
    ensures a.Some? ==> (IsIdent(a.value.0) || IsIndex(a.value.0)) && rest[..a.value.1] == AccessorText(a.value.0)
  {
    if rest[0] == '.' && IdentEnd(rest, 1) > 1 then
      var n := IdentEnd(rest, 1);
      var k := rest[1..n];
      assert IsIdent(k) by {
        assert forall i :: 0 < i < |k| ==> k[i] == rest[i + 1];
      }
      assert !IsIndex(k);
      assert rest[..n] == "." + k;
      Some((k, n))
    else if rest[0] == '[' && RunEnd(rest, 1, 10) > 1 && RunEnd(rest, 1, 10) < |rest|
            && rest[RunEnd(rest, 1, 10)] == ']' then
      var n := RunEnd(rest, 1, 10);
      var k := rest[1..n];
      assert IsIndex(k) by {
        assert forall i :: 0 <= i < |k| ==> k[i] == rest[i + 1] && DigitOf(k[i]) < 10;
      }
      assert rest[..n + 1] == "[" + k + "]";
      Some((k, n + 1))
    else None
  }

  /** The keys of the accessors that make up all of `rest`. */
  function Accessors(rest: string): (r: Result<seq<string>, Error>)
    ensures r.Err? ==> r.error == BadNamedKey
    decreases |rest|
  {
    if rest == "" then Ok([])
    else
      match AccessorAt(rest)
      case None => Err(BadNamedKey)
      case Some((key, n)) => Prefixed([key], Accessors(rest[n..]))
  }

  /** The keys of a named placeholder's key path: a leading identifier,
      then any number of `.ident` and `[digits]` accessors. */
  function KeyPath(field: string): (r: Result<seq<string>, Error>)
    ensures r.Err? ==> r.error == BadNamedKey
  {
    var n := IdentEnd(field, 0);
    if n == 0 then Err(BadNamedKey) else Prefixed([field[..n]], Accessors(field[n..]))
  }

  // ---------------------------------------------------------------------
  // Scanning

  /** The end of the run of characters other than '%' that starts at `i`. */
  function TextEnd(s: string, i: nat): (j: nat)
    requires i <= |s|
    ensures i <= j <= |s|
    ensures forall k :: i <= k < j ==> s[k] != '%'
    ensures j < |s| ==> s[j] == '%'
    decreases |s| - i
  {
    if i < |s| && s[i] != '%' then TextEnd(s, i + 1) else i
  }

  /** Where the placeholder `p` takes its argument from. */
  function ArgOf(p: Placeholder): Result<ArgRef, Error> {
    if p.name.Some? then
      var keys :- KeyPath(p.name.value);
      Ok(Path(keys))
    else if p.position.Some? then Ok(Position(p.position.value))
    else Ok(Next)
  }

  /** The template text a segment was scanned from. */
  function SourceText(seg: Segment): string {
    match seg
    case Lit(t) => if t == "%" then "%%" else t
    case Dir(raw, _, _, _, _, _, _, _) => raw
  }

  /** One step of the scan: the segment at the start of `s` and the number
      of characters it takes. A literal is a "%%" escape or a non-empty run
      free of '%'; a failure is the first character no rule accepts. */
  function Peel(s: string): (r: Result<(Segment, nat), Error>)
    requires |s| > 0
    ensures r.Ok? ==> 0 < r.value.1 <= |s| && SourceText(r.value.0) == s[..r.value.1]
    ensures r.Ok? && r.value.0.Lit? ==> r.value.0.text == "%" || (r.value.0.text != "" && '%' !in r.value.0.text)
    ensures r.Ok? && r.value.0.Dir? ==> s[0] == '%' && IsConversion(r.value.0.conv)
    ensures r.Err? ==> s[0] == '%' && (|s| == 1 || s[1] != '%')
    ensures r.Err? ==> r.error == UnexpectedPlaceholder || r.error == BadNamedKey
    ensures s[0] == '%' && !(|s| >= 2 && s[1] == '%') && MatchPlaceholder(s).None?
      ==> r == Err(UnexpectedPlaceholder)
    ensures s[0] == '%' && MatchPlaceholder(s).Some? && MatchPlaceholder(s).value.name.Some?
      && KeyPath(MatchPlaceholder(s).value.name.value).Err?
      ==> r == Err(BadNamedKey)
  {
    var text := TextEnd(s, 0);
    if text > 0 then Ok((Lit(s[..text]), text))
    else if |s| >= 2 && s[1] == '%' then Ok((Lit("%"), 2))
    else
      match MatchPlaceholder(s)
      case None => Err(UnexpectedPlaceholder)
      case Some(p) =>
        var arg :- ArgOf(p);
        Ok((Dir(s[..p.length], arg, p.plus, p.pad, p.left, p.width, p.precision, p.conv), p.length))
  }

  /** The bit a segment sets in the `arg_names` mask: 1 named, 2 unnamed. */
  function Mask(seg: Segment): bv2 {
    if seg.Lit? then 0 else if seg.arg.Path? then 1 else 2
  }

  /** Every placeholder of a tree has a conversion character. */
  predicate WellFormed(tree: seq<Segment>) {
    forall i :: 0 <= i < |tree| && tree[i].Dir? ==> IsConversion(tree[i].conv)
  }

  /** The parse loop from the remaining text `s`, with the mask so far. */
  function ParseFrom(s: string, argNames: bv2): (r: Result<seq<Segment>, Error>)
    ensures r.Ok? ==> WellFormed(r.value)
    ensures r.Err? ==> IsParseError(r.error)
    decreases |s|
  {
    if s == [] then Ok([])
    else
      var step :- Peel(s);
      var names := argNames | Mask(step.0);
      if step.0.Dir? && names == 3 then Err(MixedPlaceholders)
      else Prefixed([step.0], ParseFrom(s[step.1..], names))
  }

  /** TSSprintf.parse: the parse tree of a template, or the error it throws. */
  function Parse(fmt: string): (r: Result<seq<Segment>, Error>)
    ensures r.Ok? ==> WellFormed(r.value)
    ensures r.Err? ==> IsParseError(r.error)
  {
    ParseFrom(fmt, 0)
  }

  /** The same scan without the mixing rule: a reference for stating that rule. */
  function Scan(s: string): Result<seq<Segment>, Error>
    decreases |s|
  {
    if s == [] then Ok([])
    else
      var step :- Peel(s);
      Prefixed([step.0], Scan(s[step.1..]))
  }

  // ---------------------------------------------------------------------
  // The parse loop as the source runs it

  /** The key-path tokenizer: the leading key, then one accessor per turn
      until the field is used up. */
  method TokenizeKey(field: string) returns (r: Result<seq<string>, Error>)
    ensures r == KeyPath(field)
  {
    var n := IdentEnd(field, 0);
    if n == 0 {
      return Err(BadNamedKey);
    }
    var keys := [field[..n]];
    var rest := field[n..];
    while rest != ""
      invariant KeyPath(field) == Prefixed(keys, Accessors(rest))
      decreases |rest|
    {
      var a := AccessorAt(rest);
      if a.None? {
        return Err(BadNamedKey);
      }
      assert Accessors(rest) == Prefixed([a.value.0], Accessors(rest[a.value.1..]));
      PrefixedAppend(keys, [a.value.0], Accessors(rest[a.value.1..]));
      keys := keys + [a.value.0];
      rest := rest[a.value.1..];
    }
    assert keys + [] == keys;
    return Ok(keys);
  }

  lemma ParseStep(s: string, argNames: bv2, seg: Segment, length: nat)
    requires s != [] && Peel(s) == Ok((seg, length))
    requires !(seg.Dir? && argNames | Mask(seg) == 3)
    ensures ParseFrom(s, argNames) == Prefixed([seg], ParseFrom(s[length..], argNames | Mask(seg)))
  {
  }

  /** The placeholder branch of the parse loop: match the pattern at the
      front of `rest`, then split a named key into its keys. */
  method ScanPlaceholder(rest: string) returns (r: Result<(Segment, nat), Error>)
    requires rest != [] && TextEnd(rest, 0) == 0 && !(|rest| >= 2 && rest[1] == '%')
    ensures r == Peel(rest)
  {
    var m := MatchPlaceholder(rest);
    if m.None? {
      return Err(UnexpectedPlaceholder);
    }
    var p := m.value;
    var arg: ArgRef;
    if p.name.Some? {
      var keys :- TokenizeKey(p.name.value);
      arg := Path(keys);
    } else {
      arg := if p.position.Some? then Position(p.position.value) else Next;
    }
    assert ArgOf(p) == Ok(arg);
    return Ok((Dir(rest[..p.length], arg, p.plus, p.pad, p.left, p.width, p.precision, p.conv), p.length));
  }

  /** TSSprintf.parse as a loop: each turn takes a literal run, a "%%" or a
      placeholder off the front of the remaining text, and records in the
      mask whether the placeholder was named or unnamed. */
  method ParseTemplate(fmt: string) returns (r: Result<seq<Segment>, Error>)
    ensures r == Parse(fmt)
  {
    var rest := fmt;
    var tree: seq<Segment> := [];
    var argNames: bv2 := 0;
    PrefixedNothing(ParseFrom(fmt, 0));
    while rest != []
      invariant argNames != 3
      invariant Parse(fmt) == Prefixed(tree, ParseFrom(rest, argNames))
      decreases |rest|
    {
      var text := TextEnd(rest, 0);
      var step: (Segment, nat);
      if text > 0 {
        step := (Lit(rest[..text]), text);
      } else if |rest| >= 2 && rest[1] == '%' {
        step := (Lit("%"), 2);
      } else {
        step :- ScanPlaceholder(rest);
      }
      assert Peel(rest) == Ok(step);
      var (seg, length) := step;
      var names := argNames | Mask(seg);
      if seg.Dir? && names == 3 {
        return Err(MixedPlaceholders);
      }
      ParseStep(rest, argNames, seg, length);
      PrefixedAppend(tree, [seg], ParseFrom(rest[length..], names));
      tree := tree + [seg];
      rest := rest[length..];
      argNames := names;
    }
    assert tree + [] == tree;
    return Ok(tree);
  }
}
