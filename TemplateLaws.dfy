/** What TSSprintf.parse promises about the trees it builds: they spell out
    the template, named and unnamed placeholders never share a template,
    and a key path is recovered from its keys. */
module TemplateLaws {
  import opened Wrappers
  import opened Errors
  import opened JsNumbers
  import opened Template

  /** The template text a tree was scanned from. */
  function Unparse(tree: seq<Segment>): string {
    if tree == [] then "" else SourceText(tree[0]) + Unparse(tree[1..])
  }

  /** A parsed template spells out the original text, segment by segment. */
  lemma {:induction false} ScanCovers(s: string)
    requires Scan(s).Ok?
    ensures Unparse(Scan(s).value) == s
    decreases |s|
  {
    if s != [] {
      var step := Peel(s).value;
      var rest := s[step.1..];
      assert s == s[..step.1] + rest;
      assert Scan(s).value == [step.0] + Scan(rest).value;
      ScanCovers(rest);
    }
  }

  // ---------------------------------------------------------------------
  // Named and unnamed placeholders

  predicate HasNamed(tree: seq<Segment>) {
    exists i :: 0 <= i < |tree| && tree[i].Dir? && tree[i].arg.Path?
  }

  predicate HasUnnamed(tree: seq<Segment>) {
    exists i :: 0 <= i < |tree| && tree[i].Dir? && !tree[i].arg.Path?
  }

  /** The union of the segments' mask bits. */
  function TreeMask(tree: seq<Segment>): (m: bv2)
    ensures m & 1 == 1 <==> HasNamed(tree)
    ensures m & 2 == 2 <==> HasUnnamed(tree)
  {
    if tree == [] then 0
    else
      var rest := TreeMask(tree[1..]);
      assert HasNamed(tree) <==> (tree[0].Dir? && tree[0].arg.Path?) || HasNamed(tree[1..]) by {
        if HasNamed(tree[1..]) {
          var i :| 0 <= i < |tree[1..]| && tree[1..][i].Dir? && tree[1..][i].arg.Path?;
          assert tree[i + 1] == tree[1..][i];
        }
        if HasNamed(tree) {
          var i :| 0 <= i < |tree| && tree[i].Dir? && tree[i].arg.Path?;
          if i > 0 { assert tree[1..][i - 1] == tree[i]; }
        }
      }
      assert HasUnnamed(tree) <==> (tree[0].Dir? && !tree[0].arg.Path?) || HasUnnamed(tree[1..]) by {
        if HasUnnamed(tree[1..]) {
          var i :| 0 <= i < |tree[1..]| && tree[1..][i].Dir? && !tree[1..][i].arg.Path?;
          assert tree[i + 1] == tree[1..][i];
        }
        if HasUnnamed(tree) {
          var i :| 0 <= i < |tree| && tree[i].Dir? && !tree[i].arg.Path?;
          if i > 0 { assert tree[1..][i - 1] == tree[i]; }
        }
      }
      Mask(tree[0]) | rest
  }

  /** The parse loop with its mask agrees with the lax scan, except that it
      fails with MixedPlaceholders once the bits seen make 3. */
  lemma {:induction false} ParseFromIsScan(s: string, m: bv2)
    requires m != 3
    ensures ParseFrom(s, m).Ok? <==> Scan(s).Ok? && m | TreeMask(Scan(s).value) != 3
    ensures ParseFrom(s, m).Ok? ==> ParseFrom(s, m) == Scan(s)
    ensures ParseFrom(s, m).Err? && Scan(s).Ok? ==> ParseFrom(s, m) == Err(MixedPlaceholders)
    decreases |s|
  {
    if s != [] && Peel(s).Ok? {
      var step := Peel(s).value;
      var names := m | Mask(step.0);
      if !(step.0.Dir? && names == 3) {
        ParseFromIsScan(s[step.1..], names);
        if Scan(s).Ok? {
          assert Scan(s).value == [step.0] + Scan(s[step.1..]).value;
          assert Scan(s).value[1..] == Scan(s[step.1..]).value;
        }
      } else if Scan(s).Ok? {
        assert Scan(s).value[0] == step.0;
      }
    }
  }

  /** The mixing rule: a template parses exactly when it scans and does not
      use both a named placeholder and a positional or implicit one; mixing
      is reported as MixedPlaceholders. */
  lemma MixingRule(fmt: string)
    ensures Parse(fmt).Ok? <==> Scan(fmt).Ok? && !(HasNamed(Scan(fmt).value) && HasUnnamed(Scan(fmt).value))
    ensures Parse(fmt).Ok? ==> Parse(fmt) == Scan(fmt)
    ensures Scan(fmt).Ok? && HasNamed(Scan(fmt).value) && HasUnnamed(Scan(fmt).value) ==> Parse(fmt) == Err(MixedPlaceholders)
  {
    ParseFromIsScan(fmt, 0);
  }

  /** Every parse tree spells out its template. */
  lemma ParseCovers(fmt: string)
    requires Parse(fmt).Ok?
    ensures Unparse(Parse(fmt).value) == fmt
  {
    MixingRule(fmt);
    ScanCovers(fmt);
  }

  // ---------------------------------------------------------------------
  // Small templates

  lemma TextEndAt(s: string, i: nat, j: nat)
    requires i <= j <= |s|
    requires forall k :: i <= k < j ==> s[k] != '%'
    requires j < |s| ==> s[j] == '%'
    ensures TextEnd(s, i) == j
    decreases j - i
  {
    if i < j {
      TextEndAt(s, i + 1, j);
    }
  }

  /** Text without '%' is one literal segment, whatever the mask so far. */
  lemma LiteralFrom(t: string, m: bv2)
    requires t != "" && '%' !in t
    ensures ParseFrom(t, m) == Ok([Lit(t)])
  {
    TextEndAt(t, 0, |t|);
    assert t[..|t|] == t && t[|t|..] == [];
    assert Peel(t) == Ok((Lit(t), |t|));
    assert ParseFrom([], m) == Ok([]);
    assert [Lit(t)] + [] == [Lit(t)];
  }

  /** Text without '%' is one literal segment. */
  lemma NoPercentIsOneLiteral(t: string)
    requires t != "" && '%' !in t
    ensures Parse(t) == Ok([Lit(t)])
  {
    LiteralFrom(t, 0);
  }

  /** A lone '%' at the end of a template is an unexpected placeholder. */
  lemma TrailingPercentFails(t: string)
    requires '%' !in t
    ensures Parse(t + "%") == Err(UnexpectedPlaceholder)
  {
    var s := t + "%";
    assert MatchPlaceholder("%") == None;
    assert Peel("%") == Err(UnexpectedPlaceholder);
    if t != "" {
      TextEndAt(s, 0, |t|);
      assert s[..|t|] == t && s[|t|..] == "%";
      assert Peel(s) == Ok((Lit(t), |t|));
      assert ParseFrom(s, 0) == Prefixed([Lit(t)], ParseFrom("%", 0));
    }
  }

  /** "%%" is a literal percent sign. */
  lemma EscapedPercent()
    ensures Parse("%%") == Ok([Lit("%")])
  {
    assert TextEnd("%%", 0) == 0;
    assert Peel("%%") == Ok((Lit("%"), 2));
    assert "%%"[2..] == [];
    assert ParseFrom([], 0) == Ok([]);
    assert [Lit("%")] + [] == [Lit("%")];
  }

  /** A conversion outside [b-gijostTuvxX] is rejected. */
  lemma UnknownConversionFails(s: string)
    requires s == "%z"
    ensures Parse(s) == Err(UnexpectedPlaceholder)
  {
    assert !IsConversion(s[1]);
    assert MatchPlaceholder(s).None?;
    assert TextEnd(s, 0) == 0;
    assert Peel(s) == Err(UnexpectedPlaceholder);
  }

  lemma FullOptions(s: string)
    requires s == "%+'*-8.3f"
    ensures OptionsAt(s, 1) == Options(true, QuotedPad('*'), true, Some(8), Some(3), 8)
  {
    assert PadGroup(s, 2) == (QuotedPad('*'), 4);
    RunEndAt(s, 5, 6);
    assert s[5..6] == "8";
    assert ValueOf("8", 10) == 8;
    assert NumberAt(s, 5) == (Some(8), 6);
    RunEndAt(s, 7, 8);
    assert s[7..8] == "3";
    assert ValueOf("3", 10) == 3;
    assert PrecisionGroup(s, 6) == (Some(3), 8);
  }

  lemma FullMatch(s: string)
    requires s == "%+'*-8.3f"
    ensures MatchPlaceholder(s) == Some(Placeholder(9, None, None, true, QuotedPad('*'), true, Some(8), Some(3), 'f'))
  {
    assert RunEnd(s, 1, 10) == 1;
    assert ArgGroup(s) == (None, None, 1);
    FullOptions(s);
  }

  lemma FullPeel(s: string)
    requires s == "%+'*-8.3f"
    ensures Peel(s) == Ok((Dir(s, Next, true, QuotedPad('*'), true, Some(8), Some(3), 'f'), 9))
  {
    FullMatch(s);
    assert TextEnd(s, 0) == 0;
    assert s[..9] == s;
  }

  /** Flags, pad, width and precision are read in the pattern's order. */
  lemma FullPlaceholder(s: string)
    requires s == "%+'*-8.3f"
    ensures Parse(s) == Ok([Dir(s, Next, true, QuotedPad('*'), true, Some(8), Some(3), 'f')])
  {
    var d := Dir(s, Next, true, QuotedPad('*'), true, Some(8), Some(3), 'f');
    FullPeel(s);
    ParseStep(s, 0, d, 9);
    assert s[9..] == [];
    assert [d] + [] == [d];
  }

  lemma NamedMatch(s: string)
    requires s == "%(x)s %d"
    ensures MatchPlaceholder(s) == Some(Placeholder(5, None, Some("x"), false, NoPad, false, None, None, 's'))
  {
    assert RunEnd(s, 1, 10) == 1;
    assert CloseParen(s, 2) == 3;
    assert s[2..3] == "x";
    assert ArgGroup(s) == (None, Some("x"), 4);
    assert RunEnd(s, 4, 10) == 4;
  }

  lemma NamedPeel(s: string)
    requires s == "%(x)s %d"
    ensures Peel(s) == Ok((Dir("%(x)s", Path(["x"]), false, NoPad, false, None, None, 's'), 5))
  {
    NamedMatch(s);
    assert IdentEnd("x", 0) == 1;
    assert "x"[..1] == "x" && "x"[1..] == "";
    assert ["x"] + [] == ["x"];
    assert KeyPath("x") == Ok(["x"]);
    assert TextEnd(s, 0) == 0;
    assert s[..5] == "%(x)s";
  }

  lemma ImplicitAfterNamed(r: string)
    requires r == " %d"
    ensures ParseFrom(r, 1) == Err(MixedPlaceholders)
  {
    TextEndAt(r, 0, 1);
    assert r[..1] == " ";
    assert Peel(r) == Ok((Lit(" "), 1));
    ParseStep(r, 1, Lit(" "), 1);
    var u := r[1..];
    assert u == ['%', 'd'];
    SimplePeel('d');
  }

  /** A named placeholder followed by an implicit one is refused. */
  lemma NamedThenImplicitFails(s: string)
    requires s == "%(x)s %d"
    ensures Parse(s) == Err(MixedPlaceholders)
  {
    NamedPeel(s);
    ParseStep(s, 0, Dir("%(x)s", Path(["x"]), false, NoPad, false, None, None, 's'), 5);
    ImplicitAfterNamed(s[5..]);
  }

  lemma PositionalPeel(s: string)
    requires s == "%2$s%s"
    ensures Peel(s) == Ok((Dir("%2$s", Position(2), false, NoPad, false, None, None, 's'), 4))
    ensures s[4..] == ['%', 's']
  {
    RunEndAt(s, 1, 2);
    assert s[1..2] == "2" && ValueOf("2", 10) == 2;
    assert ArgGroup(s) == (Some(2), None, 3);
    assert RunEnd(s, 3, 10) == 3;
    assert MatchPlaceholder(s) == Some(Placeholder(4, Some(2), None, false, NoPad, false, None, None, 's'));
    assert TextEnd(s, 0) == 0;
    assert s[..4] == "%2$s";
  }

  /** "%c" for a conversion c is an implicit placeholder with no options. */
  lemma SimplePeel(c: char)
    requires IsConversion(c)
    ensures Peel(['%', c]) == Ok((Dir(['%', c], Next, false, NoPad, false, None, None, c), 2))
  {
    var s := ['%', c];
    SimpleMatch(s, c);
    assert TextEnd(s, 0) == 0;
    assert s[..2] == s;
  }

  /** The pattern on "%c" matches the whole of it, with every group empty. */
  lemma SimpleMatch(s: string, c: char)
    requires IsConversion(c) && s == ['%', c]
    ensures MatchPlaceholder(s) == Some(Placeholder(2, None, None, false, NoPad, false, None, None, c))
  {
    assert !IsDigit(c);
    assert RunEnd(s, 1, 10) == 1;
    assert ArgGroup(s) == (None, None, 1);
    assert OptionsAt(s, 1) == Options(false, NoPad, false, None, None, 1);
  }

  /** "%c" alone is one implicit placeholder. */
  lemma SimpleTemplate(s: string, c: char)
    requires IsConversion(c) && s == ['%', c]
    ensures Parse(s) == Ok([Dir(s, Next, false, NoPad, false, None, None, c)])
  {
    var d := Dir(s, Next, false, NoPad, false, None, None, c);
    SimplePeel(c);
    ParseStep(s, 0, d, 2);
    assert s[2..] == [];
    assert [d] + [] == [d];
  }

  /** "%s" at the front of `s`, whatever follows it. */
  lemma StringPeel(s: string)
    requires |s| >= 2 && s[0] == '%' && s[1] == 's'
    ensures Peel(s) == Ok((Dir("%s", Next, false, NoPad, false, None, None, 's'), 2))
  {
    assert !IsDigit(s[1]);
    assert RunEnd(s, 1, 10) == 1;
    assert ArgGroup(s) == (None, None, 1);
    assert OptionsAt(s, 1) == Options(false, NoPad, false, None, None, 1);
    assert MatchPlaceholder(s) == Some(Placeholder(2, None, None, false, NoPad, false, None, None, 's'));
    assert TextEnd(s, 0) == 0;
    assert s[..2] == "%s";
  }

  /** A literal run up to the first '%' is the first segment. */
  lemma LeadingLiteral(s: string, a: string, m: bv2)
    requires a != "" && '%' !in a && |a| < |s| && s[..|a|] == a && s[|a|] == '%'
    ensures ParseFrom(s, m) == Prefixed([Lit(a)], ParseFrom(s[|a|..], m))
  {
    assert forall k :: 0 <= k < |a| ==> s[k] == a[k];
    TextEndAt(s, 0, |a|);
    ParseStep(s, m, Lit(a), |a|);
  }

  /** "%s" and then a literal. */
  lemma StringThenLiteral(t: string, b: string)
    requires b != "" && '%' !in b && t == "%s" + b
    ensures ParseFrom(t, 0) == Ok([Dir("%s", Next, false, NoPad, false, None, None, 's'), Lit(b)])
  {
    var d := Dir("%s", Next, false, NoPad, false, None, None, 's');
    StringPeel(t);
    ParseStep(t, 0, d, 2);
    assert t[2..] == b;
    assert 0 | Mask(d) == 2;
    LiteralFrom(b, 2);
    assert [d] + [Lit(b)] == [d, Lit(b)];
  }

  /** A literal, "%s", and a literal: three segments. */
  lemma StringBetweenLiterals(s: string, a: string, b: string)
    requires a != "" && b != "" && '%' !in a && '%' !in b && s == a + "%s" + b
    ensures Parse(s) == Ok([Lit(a), Dir("%s", Next, false, NoPad, false, None, None, 's'), Lit(b)])
  {
    var d := Dir("%s", Next, false, NoPad, false, None, None, 's');
    assert s[..|a|] == a && s[|a|..] == "%s" + b;
    LeadingLiteral(s, a, 0);
    StringThenLiteral(s[|a|..], b);
    assert [Lit(a)] + [d, Lit(b)] == [Lit(a), d, Lit(b)];
  }

  /** Positional and implicit placeholders may share a template. */
  lemma PositionalWithImplicit(s: string)
    requires s == "%2$s%s"
    ensures Parse(s) == Ok([Dir("%2$s", Position(2), false, NoPad, false, None, None, 's'),
                            Dir("%s", Next, false, NoPad, false, None, None, 's')])
  {
    var d1 := Dir("%2$s", Position(2), false, NoPad, false, None, None, 's');
    var d2 := Dir("%s", Next, false, NoPad, false, None, None, 's');
    assert [d1] + [d2] == [d1, d2];
    PositionalPeel(s);
    LoneImplicit(s[4..]);
    FirstStep(s, d1, 4, [d2]);
  }

  /** A template whose first step is a placeholder that is not named. */
  lemma FirstStep(s: string, d: Segment, length: nat, rest: seq<Segment>)
    requires s != [] && Peel(s) == Ok((d, length)) && d.Dir? && !d.arg.Path?
    requires ParseFrom(s[length..], 2) == Ok(rest)
    ensures Parse(s) == Ok([d] + rest)
  {
    ParseStep(s, 0, d, length);
  }

  /** "%s" after a positional placeholder. */
  lemma LoneImplicit(t: string)
    requires t == ['%', 's']
    ensures ParseFrom(t, 2) == Ok([Dir("%s", Next, false, NoPad, false, None, None, 's')])
  {
    var d2 := Dir("%s", Next, false, NoPad, false, None, None, 's');
    SimplePeel('s');
    ParseStep(t, 2, d2, 2);
    assert t[2..] == [];
    assert [d2] + [] == [d2];
  }

  // ---------------------------------------------------------------------
  // Key paths

  /** Keys a key path can hold: an identifier, then identifiers and indices. */
  predicate WellFormedKeys(keys: seq<string>) {
    |keys| >= 1 && IsIdent(keys[0]) && forall i :: 1 <= i < |keys| ==> IsIdent(keys[i]) || IsIndex(keys[i])
  }

  function AccessorsText(keys: seq<string>): string {
    if keys == [] then "" else AccessorText(keys[0]) + AccessorsText(keys[1..])
  }

  function KeyText(keys: seq<string>): string
    requires |keys| >= 1
  {
    keys[0] + AccessorsText(keys[1..])
  }

  lemma WordEndAt(s: string, i: nat, j: nat)
    requires i <= j <= |s|
    requires forall k :: i <= k < j ==> IsWordChar(s[k])
    requires j < |s| ==> !IsWordChar(s[j])
    ensures WordEnd(s, i) == j
    decreases j - i
  {
    if i < j {
      WordEndAt(s, i + 1, j);
    }
  }

  lemma RunEndAt(s: string, i: nat, j: nat)
    requires i <= j <= |s|
    requires forall k :: i <= k < j ==> IsDigit(s[k])
    requires j < |s| ==> !IsDigit(s[j])
    ensures RunEnd(s, i, 10) == j
    decreases j - i
  {
    if i < j {
      RunEndAt(s, i + 1, j);
    }
  }

  /** An accessor's text starts with '.' or '[', which ends a word. */
  lemma AccessorsTextStart(keys: seq<string>)
    requires keys != []
    ensures AccessorsText(keys)[0] in ".["
  {
  }

  /** One accessor is read back from its text, whatever accessor follows. */
  lemma AccessorAtText(k: string, tail: string)
    requires IsIdent(k) || IsIndex(k)
    requires tail == "" || tail[0] in ".["
    ensures AccessorAt(AccessorText(k) + tail) == Some((k, |AccessorText(k)|))
  {
    var rest := AccessorText(k) + tail;
    if IsIndex(k) {
      assert rest[1 + |k|] == ']';
      RunEndAt(rest, 1, 1 + |k|);
      assert rest[1..1 + |k|] == k;
    } else {
      assert !IsDigit(k[0]);
      WordEndAt(rest, 2, 1 + |k|);
      assert rest[1..1 + |k|] == k;
    }
  }

  lemma AccessorsStep(rest: string, k: string, n: nat)
    requires rest != "" && AccessorAt(rest) == Some((k, n))
    ensures Accessors(rest) == Prefixed([k], Accessors(rest[n..]))
  {
  }

  /** Reading accessors back from their text gives the keys again. */
  lemma {:induction false} AccessorsRoundTrip(keys: seq<string>)
    requires forall i :: 0 <= i < |keys| ==> IsIdent(keys[i]) || IsIndex(keys[i])
    ensures Accessors(AccessorsText(keys)) == Ok(keys)
  {
    if keys != [] {
      var k := keys[0];
      var tail := AccessorsText(keys[1..]);
      var rest := AccessorText(k) + tail;
      if keys[1..] != [] {
        AccessorsTextStart(keys[1..]);
      }
      AccessorAtText(k, tail);
      assert rest[|AccessorText(k)|..] == tail;
      AccessorsRoundTrip(keys[1..]);
      AccessorsStep(rest, k, |AccessorText(k)|);
      assert keys == [k] + keys[1..];
    }
  }

  /** Accessors read from a text spell that text out again. */
  lemma {:induction false} AccessorsCover(rest: string)
    requires Accessors(rest).Ok?
    ensures var keys := Accessors(rest).value;
      AccessorsText(keys) == rest && forall i :: 0 <= i < |keys| ==> IsIdent(keys[i]) || IsIndex(keys[i])
    decreases |rest|
  {
    if rest != "" {
      var (k, n) := AccessorAt(rest).value;
      AccessorsCover(rest[n..]);
      var keys := Accessors(rest).value;
      assert keys == [k] + Accessors(rest[n..]).value;
      assert keys[1..] == Accessors(rest[n..]).value;
      assert rest == rest[..n] + rest[n..];
    }
  }

  /** A key path's keys print back to the field they were read from. */
  lemma KeyPathCovers(field: string)
    requires KeyPath(field).Ok?
    ensures WellFormedKeys(KeyPath(field).value)
    ensures KeyText(KeyPath(field).value) == field
  {
    var n := IdentEnd(field, 0);
    AccessorsCover(field[n..]);
    var keys := KeyPath(field).value;
    assert keys[1..] == Accessors(field[n..]).value;
    assert field == field[..n] + field[n..];
  }

  /** Well-formed keys survive printing and reading back. */
  lemma KeyPathRoundTrip(keys: seq<string>)
    requires WellFormedKeys(keys)
    ensures KeyPath(KeyText(keys)) == Ok(keys)
  {
    var field := KeyText(keys);
    var k := keys[0];
    if |keys| > 1 {
      AccessorsTextStart(keys[1..]);
    }
    assert field[..|k|] == k;
    WordEndAt(field, 1, |k|);
    assert field[|k|..] == AccessorsText(keys[1..]);
    AccessorsRoundTrip(keys[1..]);
    assert keys == [k] + keys[1..];
  }
}
