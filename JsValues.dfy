/** The JavaScript values an argument can hold, and the runtime operations
    the formatter applies to them: String(v), ToBoolean, the type tag of
    `get_type`, ToNumber (behind `v >= 0`), and own-property lookup
    (`hasOwnProperty` followed by `v[key]`). */
module JsValues {
  import opened Wrappers
  import opened Errors
  import opened Strings
  import opened JsNumbers

  /** An object lists its own enumerable properties in the engine's
      enumeration order, each key once. Functions are not values here. */
  datatype Value =
    | Num(n: Number)
    | Str(s: string)
    | Bool(b: bool)
    | Undefined
    | Null
    | Obj(fields: seq<(string, Value)>)
    | Arr(items: seq<Value>)

  /** String(v). An array is joined with ",", its undefined and null
      elements written as empty strings. */
  function ToStr(v: Value): (r: Result<string, Error>)
    ensures r.Err? ==> r.error == NotModelled
    decreases v, 1
  {
    match v
    case Num(x) => NumberToString(x)
    case Str(s) => Ok(s)
    case Bool(b) => Ok(if b then "true" else "false")
    case Undefined => Ok("undefined")
    case Null => Ok("null")
    case Obj(_) => Ok("[object Object]")
    case Arr(items) =>
      var parts :- ElementStrings(v, 0);
      Ok(Join(parts, ","))
  }

  /** The strings of the elements of array `v` from index `i` on. */
  function ElementStrings(v: Value, i: nat): (r: Result<seq<string>, Error>)
    requires v.Arr? && i <= |v.items|
    ensures r.Ok? ==> |r.value| == |v.items| - i
    ensures r.Err? ==> r.error == NotModelled
    decreases v, 0, |v.items| - i
  {
    if i == |v.items| then Ok([])
    else
      var e := v.items[i];
      var first :- if e.Undefined? || e.Null? then Ok("") else ToStr(e);
      var rest :- ElementStrings(v, i + 1);
      Ok([first] + rest)
  }

  /** ToBoolean(v), which `!!v` computes. */
  predicate Truthy(v: Value) {
    match v
    case Num(x) => NumberTruthy(x)
    case Str(s) => s != ""
    case Bool(b) => b
    case Undefined => false
    case Null => false
    case Obj(_) => true
    case Arr(_) => true
  }

  /** `get_type`: "number" and "string" from typeof, otherwise the lower-cased
      tag of Object.prototype.toString. */
  function TypeName(v: Value): (name: string)
    ensures name in {"number", "string", "boolean", "undefined", "null", "object", "array"}
  {
    match v
    case Num(_) => "number"
    case Str(_) => "string"
    case Bool(_) => "boolean"
    case Undefined => "undefined"
    case Null => "null"
    case Obj(_) => "object"
    case Arr(_) => "array"
  }

  /** ToNumber(ToPrimitive(v)), the number `v >= 0` compares. */
  function ToNumber(v: Value): (r: Result<Number, Error>)
    ensures r.Err? ==> r.error == NotModelled
  {
    match v
    case Num(x) => Ok(x)
    case Str(s) => Ok(StringToNumber(s))
    case Bool(b) => Ok(Finite(if b then 1.0 else 0.0))
    case Undefined => Ok(NaN)
    case Null => Ok(Finite(0.0))
    case Obj(_) => Ok(NaN)
    case Arr(_) =>
      var s :- ToStr(v);
      Ok(StringToNumber(s))
  }

  /** A canonical array index: "0" or digits without a leading zero. */
  predicate IsIndexKey(key: string) {
    key == "0" || (|key| >= 1 && '1' <= key[0] <= '9' && AllDigits(key, 10))
  }

  /** The position of `key` among `fields`, if it is there. */
  function FieldIndex(fields: seq<(string, Value)>, key: string): (r: Option<nat>)
    ensures r.Some? ==> r.value < |fields| && fields[r.value].0 == key
    ensures r.None? ==> forall i :: 0 <= i < |fields| ==> fields[i].0 != key
  {
    if fields == [] then None
    else if fields[0].0 == key then Some(0)
    else match FieldIndex(fields[1..], key)
      case Some(i) => Some(i + 1)
      case None => None
  }

  /** `v.hasOwnProperty(key)` for a `v` that is neither undefined nor null:
      strings and arrays own their indices and "length"; numbers and booleans
      own nothing. */
  predicate HasOwn(v: Value, key: string) {
    match v
    case Obj(fields) => FieldIndex(fields, key).Some?
    case Str(s) => key == "length" || (IsIndexKey(key) && ValueOf(key, 10) < |s|)
    case Arr(items) => key == "length" || (IsIndexKey(key) && ValueOf(key, 10) < |items|)
    case _ => false
  }

  /** `v[key]` for an own property `key` of `v`. */
  function Get(v: Value, key: string): Value
    requires HasOwn(v, key)
  {
    match v
    case Obj(fields) => fields[FieldIndex(fields, key).value].1
    case Str(s) => if key == "length" then Num(Finite(|s| as real)) else Str([s[ValueOf(key, 10)]])
    case Arr(items) => if key == "length" then Num(Finite(|items| as real)) else items[ValueOf(key, 10)]
  }
}
