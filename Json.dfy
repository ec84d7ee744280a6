/** JSON.stringify(value, null, space) over the model's values: what the
    `j` conversion writes. */
module Json {
  import opened Wrappers
  import opened Errors
  import opened Strings
  import opened JsNumbers
  import opened JsValues

  /** The gap `space` selects: min(10, space) spaces, none below 1. */
  function Gap(space: int): (gap: string)
    ensures |gap| <= 10
    ensures forall i :: 0 <= i < |gap| ==> gap[i] == ' '
  {
    if space < 1 then "" else Repeat(' ', if space > 10 then 10 else space)
  }

  /** Four lower-case hex digits of `k`. */
  function Hex4(k: nat): string
    requires k < 0x10000
  {
    [DigitChar(k / 0x1000), DigitChar(k / 0x100 % 16), DigitChar(k / 16 % 16), DigitChar(k % 16)]
  }

  /** QuoteJSONString's escape of one character. */
  function EscapeChar(c: char): string {
    if c == '"' then "\\\""
    else if c == '\\' then "\\\\"
    else if c as int == 0x08 then "\\b"
    else if c as int == 0x0C then "\\f"
    else if c == '\n' then "\\n"
    else if c == '\r' then "\\r"
    else if c == '\t' then "\\t"
    else if (c as int) < 0x20 then "\\u" + Hex4(c as int)
    else [c]
  }

  function EscapeAll(s: string): string {
    if s == [] then "" else EscapeAll(s[..|s| - 1]) + EscapeChar(s[|s| - 1])
  }

  /** QuoteJSONString(s). */
  function Quote(s: string): (q: string)
    ensures |q| >= 2 && q[0] == '"' && q[|q| - 1] == '"'
  {
    "\"" + EscapeAll(s) + "\""
  }

  /** The elements of a non-empty object or array laid out between `open`
      and `close`, on separate lines when there is a gap. */
  function Wrap(open: string, parts: seq<string>, close: string, gap: string, indent: string): string {
    if parts == [] then open + close
    else if gap == "" then open + Join(parts, ",") + close
    else
      var inner := indent + gap;
      open + "\n" + inner + Join(parts, ",\n" + inner) + "\n" + indent + close
  }

  /** SerializeJSONProperty: None where JSON.stringify yields undefined. */
  function Serialize(v: Value, gap: string, indent: string): (r: Result<Option<string>, Error>)
    ensures r.Err? ==> r.error == NotModelled
    ensures r.Ok? && r.value.None? <==> v.Undefined?
    decreases v, 1
  {
    match v
    case Undefined => Ok(None)
    case Null => Ok(Some("null"))
    case Bool(b) => Ok(Some(if b then "true" else "false"))
    case Str(s) => Ok(Some(Quote(s)))
    case Num(x) =>
      if x.Finite? then
        var s :- NumberToString(x);
        Ok(Some(s))
      else Ok(Some("null"))
    case Obj(fields) =>
      var members :- Members(v, 0, gap, indent + gap);
      Ok(Some(Wrap("{", members, "}", gap, indent)))
    case Arr(items) =>
      var elements :- Elements(v, 0, gap, indent + gap);
      Ok(Some(Wrap("[", elements, "]", gap, indent)))
  }

  /** The members `"key":value` of object `v` from field `i` on, skipping
      those whose value serializes to undefined. */
  function Members(v: Value, i: nat, gap: string, indent: string): (r: Result<seq<string>, Error>)
    requires v.Obj? && i <= |v.fields|
    ensures r.Err? ==> r.error == NotModelled
    decreases v, 0, |v.fields| - i
  {
    if i == |v.fields| then Ok([])
    else
      var field := v.fields[i];
      assert field in v.fields;
      var s :- Serialize(field.1, gap, indent);
      var rest :- Members(v, i + 1, gap, indent);
      if s.None? then Ok(rest)
      else Ok([Quote(field.0) + ":" + (if gap == "" then "" else " ") + s.value] + rest)
  }

  /** The elements of array `v` from index `i` on; undefined becomes "null". */
  function Elements(v: Value, i: nat, gap: string, indent: string): (r: Result<seq<string>, Error>)
    requires v.Arr? && i <= |v.items|
    ensures r.Ok? ==> |r.value| == |v.items| - i
    ensures r.Err? ==> r.error == NotModelled
    decreases v, 0, |v.items| - i
  {
    if i == |v.items| then Ok([])
    else
      var s :- Serialize(v.items[i], gap, indent);
      var rest :- Elements(v, i + 1, gap, indent);
      Ok([if s.Some? then s.value else "null"] + rest)
  }

  /** JSON.stringify(v, null, space). */
  function Stringify(v: Value, space: int): (r: Result<Option<string>, Error>)
    ensures r.Err? ==> r.error == NotModelled
    ensures r.Ok? && r.value.None? <==> v.Undefined?
  {
    Serialize(v, Gap(space), "")
  }
}
