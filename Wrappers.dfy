/** Option and Result, the two wrappers the model returns instead of
    JavaScript's `undefined` and thrown exceptions. Result is
    failure-compatible, so `:-` propagates an error. */
module Wrappers {

  datatype Option<+T> = None | Some(value: T)

  datatype Result<+T, +E> = Ok(value: T) | Err(error: E) {

    predicate IsFailure() {
      Err?
    }

    function PropagateFailure<U>(): Result<U, E>
      requires Err?
    {
      Err(error)
    }

    function Extract(): T
      requires Ok?
    {
      value
    }
  }

  /** `r` with `prefix` put in front of its value; an error stays as it is. */
  function Prefixed<T, E>(prefix: seq<T>, r: Result<seq<T>, E>): (p: Result<seq<T>, E>)
    ensures p.Ok? <==> r.Ok?
    ensures p.Ok? ==> p.value == prefix + r.value
    ensures p.Err? ==> p == r
  {
    match r
    case Ok(v) => Ok(prefix + v)
    case Err(e) => Err(e)
  }

  lemma PrefixedNothing<T, E>(r: Result<seq<T>, E>)
    ensures Prefixed([], r) == r
  {
    if r.Ok? {
      assert [] + r.value == r.value;
    }
  }

  lemma PrefixedAppend<T, E>(a: seq<T>, b: seq<T>, r: Result<seq<T>, E>)
    ensures Prefixed(a, Prefixed(b, r)) == Prefixed(a + b, r)
  {
    if r.Ok? {
      assert a + (b + r.value) == (a + b) + r.value;
    }
  }
}

module Errors {

  datatype Error =
      /** SyntaxError "[sprintf] unexpected placeholder" */
    | UnexpectedPlaceholder
      /** SyntaxError "[sprintf] failed to parse named argument key" */
    | BadNamedKey
      /** Error "[sprintf] mixing positional and named placeholders is not (yet) supported" */
    | MixedPlaceholders
      /** Error "[sprintf] property "<key>" does not exist" */
    | MissingProperty(key: string)
      /** A TypeError raised by the JavaScript runtime: `member` was read from
          `undefined` or `null`, or is not a function of the receiver */
    | TypeError(member: string)
      /** A RangeError from toFixed, toExponential or toPrecision: too many or too few digits */
    | RangeError
      /** The output would depend on floating-point digit generation, which is not modelled */
    | NotModelled

  /** The errors a JavaScript built-in raises while one argument is
      converted; never one of the formatter's own. */
  predicate IsRuntimeError(e: Error) {
    e.TypeError? || e == RangeError || e == NotModelled
  }

  /** The errors TSSprintf.parse throws. */
  predicate IsParseError(e: Error) {
    e == UnexpectedPlaceholder || e == BadNamedKey || e == MixedPlaceholders
  }
}
