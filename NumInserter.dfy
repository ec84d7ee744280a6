/** The number inserter: the override string "fmt" or "fmt:start:step" a user
    types, the settings that fall back to "%d", 0 and 1, and the loop that
    writes sprintf(fmt, cur) into each selection while `cur` advances by
    `step`. The editor is abstracted to a selection count and the strings
    that replace the selections, in order. */
module NumInserter {
  import opened Wrappers
  import opened Errors
  import opened Strings
  import opened JsNumbers
  import opened JsValues
  import opened Sprintf
  import Template

  /** The three settings insertNumbers reads. */
  datatype Settings = Settings(formatStr: string, start: Number, step: Number)

  // ---------------------------------------------------------------------
  // The override string

  /** A start or step field: parseFloat when it holds a '.', else parseInt
      with the radix left out (so "0x10" is 16). */
  function ParseField(field: string): Number {
    if '.' in field then ParseFloat(field) else ParseInt(field, true)
  }

  /** parseUserInput: None for an empty input and for one without '%' (after
      "Wrong format string." is shown); the whole input as the template when
      it has no ':'; otherwise the first three ':'-fields. With exactly one
      ':' the step field is undefined and `strStep.includes` throws. */
  function ParseUserInput(input: string): (r: Result<Option<Settings>, Error>)
    ensures r.Err? <==> '%' in input && Count(input, ':') == 1
    ensures r.Err? ==> r.error == TypeError("includes")
    ensures r == Ok(None) <==> '%' !in input
    ensures r.Ok? && r.value.Some? && ':' in input ==> ':' !in r.value.value.formatStr
  {
    if input == "" then Ok(None)
    else if '%' !in input then Ok(None)
    else if ':' !in input then Ok(Some(Settings(input, Finite(0.0), Finite(1.0))))
    else
      var fields := SplitLimit(input, ':', 3);
      if |fields| < 3 then Err(TypeError("includes"))
      else Ok(Some(Settings(fields[0], ParseField(fields[1]), ParseField(fields[2]))))
  }

  /** Without a ':' the input is the template, counted from 0 in steps of 1. */
  lemma WholeInputIsTemplate(input: string)
    requires '%' in input && ':' !in input
    ensures ParseUserInput(input) == Ok(Some(Settings(input, Finite(0.0), Finite(1.0))))
  {
  }

  /** The decimal string of an integer below 10^21 holds no '.' and no ':'. */
  lemma IntegerField(n: int)
    requires Abs(n) < PlainLimit
    ensures '.' !in IntToString(n) && ':' !in IntToString(n)
    ensures ParseField(IntToString(n)) == Finite(n as real)
  {
    var digits := Digits(Abs(n), 10);
    PlainDigits(Abs(n));
    assert forall k :: 0 <= k < |digits| ==> IsDigit(digits[k]) by {
      forall k | 0 <= k < |digits| ensures IsDigit(digits[k]) {
        assert DigitOf(digits[k]) < 10;
      }
    }
    var s := IntToString(n);
    assert s == (if n < 0 then "-" else "") + digits;
    assert forall k :: 0 <= k < |s| ==> s[k] != '.' && s[k] != ':' && s[k] != 'x' && s[k] != 'X' by {
      forall k | 0 <= k < |s| ensures s[k] != '.' && s[k] != ':' && s[k] != 'x' && s[k] != 'X' {
        if n < 0 && k > 0 {
          assert s[k] == digits[k - 1];
        } else if n >= 0 {
          assert s[k] == digits[k];
        }
      }
    }
    ParseIntRoundTrip(n);
    HexNeedsAnX(s);
  }

  /** "fmt:start:step" is read field by field. */
  lemma ThreeFields(input: string, f: string, x: string, y: string)
    requires '%' in f && ':' !in f && ':' !in x && ':' !in y
    requires input == f + ":" + x + ":" + y
    ensures ParseUserInput(input) == Ok(Some(Settings(f, ParseField(x), ParseField(y))))
  {
    SplitThree(f, x, y, ':');
    assert input[|f|] == ':';
    assert input[..|f|] == f;
  }

  /** "fmt:start:step" with integer fields reads back the template and the
      two integers. */
  lemma UserInputRoundTrip(f: string, a: int, b: int)
    requires '%' in f && ':' !in f && Abs(a) < PlainLimit && Abs(b) < PlainLimit
    ensures ParseUserInput(f + ":" + IntToString(a) + ":" + IntToString(b))
      == Ok(Some(Settings(f, Finite(a as real), Finite(b as real))))
  {
    IntegerField(a);
    IntegerField(b);
    ThreeFields(f + ":" + IntToString(a) + ":" + IntToString(b), f, IntToString(a), IntToString(b));
  }

  /** A fourth field and anything after it is ignored. */
  lemma ExtraFieldsIgnored(f: string, x: string, y: string, rest: string)
    requires '%' in f && ':' !in f && ':' !in x && ':' !in y
    ensures ParseUserInput(f + ":" + x + ":" + y + ":" + rest) == ParseUserInput(f + ":" + x + ":" + y)
  {
    var head := f + ":" + x + ":" + y;
    var input := head + ":" + rest;
    assert input == head + [':'] + rest;
    assert input[|f|] == ':';
    assert input[..|f|] == f;
    ThreeFields(head, f, x, y);
    SplitThree(f, x, y, ':');
    SplitLimitDropsRest(head, ':', rest, 3);
  }

  // ---------------------------------------------------------------------
  // The numbering loop

  /** The value `cur` holds at the i-th selection: `start`, advanced by
      `step` i times. */
  function Counter(start: Number, step: Number, i: nat): (x: Number)
    ensures step.NaN? && i > 0 ==> x.NaN?
  {
    if i == 0 then start else Add(Counter(start, step, i - 1), step)
  }

  /** With finite settings the i-th value is exactly start + i * step. */
  lemma {:induction false} CounterValue(start: Number, step: Number, i: nat)
    requires start.Finite? && step.Finite?
    ensures Counter(start, step, i) == Finite(start.r + (i as real) * step.r)
  {
    if i > 0 {
      CounterValue(start, step, i - 1);
      assert ((i - 1) as real) * step.r + step.r == (i as real) * step.r;
    }
  }

  /** The integer `n` as a JavaScript number. */
  function Integer(n: int): Number {
    Finite(n as real)
  }

  /** Integer start and step keep `cur` an integer. */
  lemma IntegerCounter(start: Number, step: Number, a: int, b: int, i: nat)
    requires start == Finite(a as real) && step == Finite(b as real)
    ensures Counter(start, step, i) == Finite((a + i * b) as real)
  {
    CounterValue(start, step, i);
    var x := Counter(start, step, i);
    assert x.r == (a as real) + (i as real) * (b as real);
    assert (i as real) * (b as real) == (i * b) as real;
  }

  /** What one selection receives for the value `cur`: a string, or the
      error that ends the edit. */
  type Emitter = Number -> Result<string, Error>

  /** `sprintf(fmt, cur)` as the loop calls it. */
  function Sprinter(fmt: string): Emitter {
    x => Format(fmt, [Num(x)])
  }

  /** `emit` fails with `e` at selection `k`, and at none of the selections
      from `i` up to `k`. */
  predicate FirstFailure(emit: Emitter, start: Number, step: Number, i: nat, k: nat, e: Error) {
    emit(Counter(start, step, k)) == Err(e)
    && forall j :: i <= j < k ==> emit(Counter(start, step, j)).Ok?
  }

  /** The strings written into selections i, i + 1, ..., count - 1, or the
      first error among them. */
  function NumbersFrom(emit: Emitter, start: Number, step: Number, i: nat, count: nat): (r: Result<seq<string>, Error>)
    requires i <= count
    ensures r.Ok? ==> |r.value| == count - i
    ensures r.Ok? ==> forall k :: 0 <= k < count - i ==> emit(Counter(start, step, i + k)) == Ok(r.value[k])
    ensures r.Err? ==> exists k :: i <= k < count && FirstFailure(emit, start, step, i, k, r.error)
    decreases count - i
  {
    if i == count then Ok([])
    else match emit(Counter(start, step, i))
      case Err(e) =>
        assert FirstFailure(emit, start, step, i, i, e);
        Err(e)
      case Ok(str) =>
        var rest := NumbersFrom(emit, start, step, i + 1, count);
        assert rest.Err? ==> exists k :: i <= k < count && FirstFailure(emit, start, step, i, k, rest.error) by {
          if rest.Err? {
            var k :| i + 1 <= k < count && FirstFailure(emit, start, step, i + 1, k, rest.error);
            assert FirstFailure(emit, start, step, i, k, rest.error);
          }
        }
        Prefixed([str], rest)
  }

  /** The cache `c1` keeps every entry of `c0` and adds at most `fmt` and
      the missing-property message template; once `fmt` was looked up
      (`used`), it is cached exactly when it was in `c0` or it parses, and
      before that nothing changed. */
  ghost predicate Grown(c0: map<string, seq<Template.Segment>>, c1: map<string, seq<Template.Segment>>, fmt: string, used: bool) {
    (forall k :: k in c0 ==> k in c1 && c1[k] == c0[k])
    && (forall k :: k in c1 && k !in c0 ==> k == fmt || k == MissingPropertyTemplate)
    && (used ==> (fmt in c1 <==> fmt in c0 || Template.Parse(fmt).Ok?))
    && (!used ==> c1 == c0)
  }

  /** One more sprintf of `fmt` keeps the cache grown from `c0`. */
  lemma CacheGrows(c0: map<string, seq<Template.Segment>>, c1: map<string, seq<Template.Segment>>, fmt: string, r: Result<string, Error>, used: bool)
    requires Grown(c0, c1, fmt, used)
    ensures Grown(c0, CacheAfter(c1, fmt, r), fmt, true)
  {
  }

  /** insertNumbers: one sprintf per selection, `cur += step` after each.
      The shared cache keeps its entries and gains at most the template and
      the missing-property message template; after the first selection the
      template is cached exactly when it was already or it parses. */
  method InsertNumbers(engine: Engine, s: Settings, count: nat) returns (r: Result<seq<string>, Error>)
    requires engine.Valid()
    modifies engine
    ensures engine.Valid()
    ensures r == NumbersFrom(Sprinter(s.formatStr), s.start, s.step, 0, count)
    ensures Grown(old(engine.cache), engine.cache, s.formatStr, count > 0)
  {
    ghost var emit := Sprinter(s.formatStr);
    var cur := s.start;
    var edits: seq<string> := [];
    PrefixedNothing(NumbersFrom(emit, s.start, s.step, 0, count));
    for i := 0 to count
      invariant engine.Valid()
      invariant Grown(old(engine.cache), engine.cache, s.formatStr, i > 0)
      invariant cur == Counter(s.start, s.step, i)
      invariant NumbersFrom(emit, s.start, s.step, 0, count) == Prefixed(edits, NumbersFrom(emit, s.start, s.step, i, count))
    {
      ghost var before := engine.cache;
      var out := engine.Sprintf(s.formatStr, [Num(cur)]);
      CacheGrows(old(engine.cache), before, s.formatStr, out, i > 0);
      assert emit(cur) == out;
      if out.Err? {
        return Err(out.error);
      }
      var str := out.value;
      cur := Add(cur, s.step);
      PrefixedAppend(edits, [str], NumbersFrom(emit, s.start, s.step, i + 1, count));
      edits := edits + [str];
    }
    assert edits + [] == edits;
    return Ok(edits);
  }

  /** With integer settings, "%d" never fails, whatever the number of
      selections. */
  lemma DecimalNumberingSucceeds(s: Settings, count: nat, a: int, b: int)
    requires s.formatStr == "%d" && s.start == Finite(a as real) && s.step == Finite(b as real)
    ensures NumbersFrom(Sprinter(s.formatStr), s.start, s.step, 0, count).Ok?
  {
    forall n: int
      ensures Sprinter(s.formatStr)(Integer(n)).Ok?
    {
      DecimalEmits(s.formatStr, n);
    }
    IntegersNeverFail(Sprinter(s.formatStr), s.start, s.step, a, b, count);
  }

  /** An emitter that accepts every integer never stops a numbering with
      integer start and step. */
  lemma IntegersNeverFail(emit: Emitter, start: Number, step: Number, a: int, b: int, count: nat)
    requires start == Finite(a as real) && step == Finite(b as real)
    requires forall n: int :: emit(Integer(n)).Ok?
    ensures NumbersFrom(emit, start, step, 0, count).Ok?
  {
    forall j | 0 <= j < count
      ensures emit(Counter(start, step, j)).Ok?
    {
      IntegerCounter(start, step, a, b, j);
      assert Counter(start, step, j) == Integer(a + j * b);
    }
    NoFailureNoError(emit, start, step, 0, count);
  }

  /** The loop stops early only at a selection that fails. */
  lemma NoFailureNoError(emit: Emitter, start: Number, step: Number, i: nat, count: nat)
    requires i <= count
    requires forall j :: i <= j < count ==> emit(Counter(start, step, j)).Ok?
    ensures NumbersFrom(emit, start, step, i, count).Ok?
  {
  }

  /** One selection under "%d" with an integer value succeeds. */
  lemma DecimalEmits(fmt: string, n: int)
    requires fmt == "%d"
    ensures Sprinter(fmt)(Integer(n)).Ok?
  {
    DecimalNeverFails(fmt, n);
    assert Sprinter(fmt)(Finite(n as real)) == Format(fmt, [Num(Finite(n as real))]);
  }

  /** With integer settings, "%d" numbers the selections start, start + step, ... */
  lemma DecimalNumbering(s: Settings, count: nat, a: int, b: int, k: nat)
    requires s.formatStr == "%d" && s.start == Finite(a as real) && s.step == Finite(b as real)
    requires k < count && Abs(a + k * b) < PlainLimit
    ensures NumbersFrom(Sprinter(s.formatStr), s.start, s.step, 0, count).Ok?
    ensures NumbersFrom(Sprinter(s.formatStr), s.start, s.step, 0, count).value[k] == IntToString(a + k * b)
  {
    var n := a + k * b;
    DecimalNumberingSucceeds(s, count, a, b);
    IntegerCounter(s.start, s.step, a, b, k);
    DecimalSprinter(s.formatStr, n);
  }

  /** One selection under "%d" with an integer value. */
  lemma DecimalSprinter(fmt: string, n: int)
    requires fmt == "%d" && Abs(n) < PlainLimit
    ensures Sprinter(fmt)(Finite(n as real)) == Ok(IntToString(n))
  {
    DecimalOfInteger(fmt, n);
  }

  // ---------------------------------------------------------------------
  // Settings

  /** The "insertnum" configuration as read: each entry absent or of its
      declared type. */
  datatype Config = Config(formatstr: Option<string>, start: Option<Number>, step: Option<Number>)

  /** The settings updateSettings derives: a falsy entry (absent, "", 0 or
      NaN) takes its default "%d", 0 or 1. */
  function FromConfig(config: Config): (s: Settings)
    ensures s.formatStr != "" && NumberTruthy(s.step)
    ensures config.formatstr.Some? && config.formatstr.value != "" ==> s.formatStr == config.formatstr.value
    ensures config.start.Some? && NumberTruthy(config.start.value) ==> s.start == config.start.value
    ensures config.step.Some? && NumberTruthy(config.step.value) ==> s.step == config.step.value
    ensures !(config.start.Some? && NumberTruthy(config.start.value)) ==> s.start == Finite(0.0)
    ensures !(config.step.Some? && NumberTruthy(config.step.value)) ==> s.step == Finite(1.0)
  {
    Settings(
      if config.formatstr.Some? && config.formatstr.value != "" then config.formatstr.value else "%d",
      if config.start.Some? && NumberTruthy(config.start.value) then config.start.value else Finite(0.0),
      if config.step.Some? && NumberTruthy(config.step.value) then config.step.value else Finite(1.0))
  }

  /** A configured step of 0 would repeat one number; it becomes 1. */
  lemma ZeroStepBecomesOne(config: Config)
    requires config.step == Some(Finite(0.0))
    ensures FromConfig(config).step == Finite(1.0)
  {
  }

  /** InsertSettngs: the settings read from the configuration, re-read
      whenever it changes. */
  class InsertSettings {
    var formatStr: string
    var start: Number
    var step: Number

    /** The settings as insertNumbers reads them. */
    function Current(): Settings
      reads this
    {
      Settings(formatStr, start, step)
    }

    constructor(config: Config)
      ensures Current() == FromConfig(config)
    {
      formatStr, start, step := "%d", Finite(0.0), Finite(1.0);
      new;
      UpdateSettings(config);
    }

    /** updateSettings: each field takes its entry, then its default when
        the entry is falsy. */
    method UpdateSettings(config: Config)
      modifies this
      ensures Current() == FromConfig(config)
    {
      if config.formatstr.Some? && config.formatstr.value != "" {
        formatStr := config.formatstr.value;
      } else {
        formatStr := "%d";
      }
      if config.start.Some? && NumberTruthy(config.start.value) {
        start := config.start.value;
      } else {
        start := Finite(0.0);
      }
      if config.step.Some? && NumberTruthy(config.step.value) {
        step := config.step.value;
      } else {
        step := Finite(1.0);
      }
    }
  }
}
