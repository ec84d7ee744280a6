/** TSSprintf.sprintf: a static cache of parse trees, keyed by template, in
    front of parse and format. A template is parsed on its first use and its
    tree reused by every later call. */
module Sprintf {
  import opened Wrappers
  import opened Errors
  import opened JsNumbers
  import opened JsValues
  import opened Template
  import opened Render
  import TemplateLaws
  import RenderLaws

  /** sprintf(fmt, ...args) as the caller sees it: the template's parse
      error, or the output of formatting its tree with `args`. */
  function Format(fmt: string, args: seq<Value>): (r: Result<string, Error>)
    ensures r.Err? ==> (IsParseError(r.error) <==> Parse(fmt).Err?)
    ensures Parse(fmt).Err? ==> r.Err?
  {
    var tree :- Parse(fmt);
    Render.Render(tree, args)
  }

  /** A template without '%' comes out as it is, whatever the arguments. */
  lemma PlainTextFormatsToItself(t: string, args: seq<Value>)
    requires '%' !in t
    ensures Format(t, args) == Ok(t)
  {
    if t == "" {
      assert Parse(t) == Ok([]);
    } else {
      TemplateLaws.NoPercentIsOneLiteral(t);
      RenderLaws.LiteralRenders(t, args, 0);
    }
  }

  /** sprintf("%d", n) is the decimal string of an integer below 10^21. */
  lemma DecimalOfInteger(fmt: string, n: int)
    requires fmt == "%d" && Abs(n) < PlainLimit
    ensures Format(fmt, [Num(Finite(n as real))]) == Ok(IntToString(n))
  {
    var d := Dir("%d", Next, false, NoPad, false, None, None, 'd');
    TemplateLaws.SimpleTemplate(fmt, 'd');
    RenderLaws.PlainDecimal(d, n);
    RenderLaws.LoneImplicitRenders(d, [Num(Finite(n as real))], IntToString(n));
  }

  /** sprintf("%d", n) never fails on an integer, however large. */
  lemma DecimalNeverFails(fmt: string, n: int)
    requires fmt == "%d"
    ensures Format(fmt, [Num(Finite(n as real))]).Ok?
  {
    var d := Dir("%d", Next, false, NoPad, false, None, None, 'd');
    var argv := [Num(Finite(n as real))];
    TemplateLaws.SimpleTemplate(fmt, 'd');
    RenderLaws.IntegerNeverFails(d, n);
    RenderLaws.LoneImplicitRenders(d, argv, RenderDirective(d, argv[0]).value);
  }

  // ---------------------------------------------------------------------
  // The message of a missing property

  const MessageHead: string := "[sprintf] property \""
  const MessageTail: string := "\" does not exist"

  /** The error message for a missing key is itself built by sprintf. */
  const MissingPropertyTemplate: string := MessageHead + "%s" + MessageTail

  /** The message template: a literal, "%s" and a literal. */
  lemma MessageTemplateParses()
    ensures Parse(MissingPropertyTemplate) == Ok([Lit(MessageHead), RenderLaws.PlainString, Lit(MessageTail)])
  {
    TemplateLaws.StringBetweenLiterals(MissingPropertyTemplate, MessageHead, MessageTail);
  }

  /** The message template parses, and puts the key between the quotes. */
  lemma MissingPropertyMessage(key: string)
    ensures Parse(MissingPropertyTemplate).Ok?
    ensures Format(MissingPropertyTemplate, [Str(key)]) == Ok(MessageHead + key + MessageTail)
  {
    MessageTemplateParses();
    RenderLaws.StringBetweenLiteralsRenders(MessageHead, MessageTail, key);
  }

  // ---------------------------------------------------------------------
  // The cache

  /** Every cached tree is the parse tree of its own template. */
  ghost predicate Faithful(cache: map<string, seq<Segment>>) {
    forall key :: key in cache ==> Parse(key) == Ok(cache[key])
  }

  /** The cache after `key` was looked up: a template already there is not
      parsed again; otherwise its tree is added when it parses. */
  function Remember(cache: map<string, seq<Segment>>, key: string): (c: map<string, seq<Segment>>)
    ensures key in cache ==> c == cache
    ensures key in c <==> key in cache || Parse(key).Ok?
    ensures forall k :: k in cache ==> k in c && c[k] == cache[k]
    ensures forall k :: k in c && k !in cache ==> k == key
    ensures Faithful(cache) ==> Faithful(c)
  {
    if key in cache then cache
    else match Parse(key)
      case Ok(tree) => cache[key := tree]
      case Err(_) => cache
  }

  /** The cache after a call sprintf(fmt, ...) that returned `r`: the
      template is remembered, and a missing-property error remembers the
      message template as well. */
  function CacheAfter(cache: map<string, seq<Segment>>, fmt: string, r: Result<string, Error>): (c: map<string, seq<Segment>>)
    ensures fmt in c <==> fmt in cache || Parse(fmt).Ok?
    ensures forall k :: k in cache ==> k in c && c[k] == cache[k]
    ensures forall k :: k in c && k !in cache ==> k == fmt || k == MissingPropertyTemplate
    ensures Faithful(cache) ==> Faithful(c)
  {
    var c := Remember(cache, fmt);
    if r.Err? && r.error.MissingProperty? then Remember(c, MissingPropertyTemplate) else c
  }

  /** A second call with a cached template changes the cache only through
      a missing-property message. */
  lemma CachedTemplateIsNotParsedAgain(cache: map<string, seq<Segment>>, fmt: string, r: Result<string, Error>)
    requires fmt in cache && !(r.Err? && r.error.MissingProperty?)
    ensures CacheAfter(cache, fmt, r) == cache
  {
  }

  /** The formatter with its parse-tree cache. The cache holds own entries
      only: a template is a hit exactly when the cache has an entry for it. */
  class Engine {
    var cache: map<string, seq<Segment>>

    ghost predicate Valid()
      reads this
    {
      Faithful(cache)
    }

    constructor()
      ensures Valid() && cache == map[]
    {
      cache := map[];
    }

    /** The hit test and the miss path: the tree of `key`, parsed and
        stored when the cache has no entry for it. */
    method Lookup(key: string) returns (tree: Result<seq<Segment>, Error>)
      requires Valid()
      modifies this
      ensures Valid()
      ensures tree == Parse(key)
      ensures cache == Remember(old(cache), key)
    {
      if key in cache {
        return Ok(cache[key]);
      }
      tree := ParseTemplate(key);
      if tree.Ok? {
        cache := cache[key := tree.value];
      }
    }

    /** sprintf(fmt, ...args): look the template up, then format its tree.
        A missing property makes a nested call that builds the error message
        from its own template, through the same cache. */
    method Sprintf(fmt: string, args: seq<Value>) returns (r: Result<string, Error>)
      requires Valid()
      modifies this
      ensures Valid()
      ensures r == Format(fmt, args)
      ensures cache == CacheAfter(old(cache), fmt, r)
    {
      var tree :- Lookup(fmt);
      r := FormatTree(tree, args);
      if r.Err? && r.error.MissingProperty? {
        MissingPropertyMessage(r.error.key);
        var messageTree := Lookup(MissingPropertyTemplate);
        var message := FormatTree(messageTree.value, [Str(r.error.key)]);
      }
    }
  }

  // ---------------------------------------------------------------------
  // The hit test as written

  /** The accessor every plain object inherits for its prototype. Reading it
      gives the prototype, an object; assigning an object to it replaces the
      prototype and makes no own entry. */
  const ProtoKey: string := "__proto__"

  /** The members every plain object inherits from Object.prototype: reading
      one from the cache object finds a function or the prototype, both
      truthy. */
  const InheritedNames: set<string> := {
    "constructor", "hasOwnProperty", "isPrototypeOf", "propertyIsEnumerable",
    "toLocaleString", "toString", "valueOf",
    "__defineGetter__", "__defineSetter__", "__lookupGetter__", "__lookupSetter__",
    ProtoKey
  }

  /** `cache[key] && cache.hasOwnProperty(key)` on a cache object whose own
      entries are `cache`. `cache[key]` is truthy for an own entry (a parse
      tree is an array) and for an inherited member. The method is then looked
      up on the cache itself, so once "hasOwnProperty" is an own entry, the
      call finds an array and throws a TypeError. "__proto__" is never an own
      entry, so it is never a hit. */
  function HitAsWritten(cache: map<string, seq<Segment>>, key: string): (r: Result<bool, Error>)
    ensures r.Ok? ==> (r.value <==> key in cache && key != ProtoKey)
    ensures r.Err? <==> "hasOwnProperty" in cache && (key in cache || key in InheritedNames)
  {
    if key !in cache && key !in InheritedNames then Ok(false)
    else if "hasOwnProperty" in cache then Err(TypeError("hasOwnProperty"))
    else Ok(key in cache && key != ProtoKey)
  }

  /** The tree of `key` and the cache after the lookup, with the hit test as
      written. Storing the tree of "__proto__" replaces the cache object's
      prototype and adds no own entry. */
  function LookupAsWritten(cache: map<string, seq<Segment>>, key: string): (res: (Result<seq<Segment>, Error>, map<string, seq<Segment>>))
    requires Faithful(cache)
    ensures res.0.Ok? ==> res.0 == Parse(key)
    ensures Faithful(res.1)
    ensures key == ProtoKey ==> res.1 == cache
  {
    match HitAsWritten(cache, key)
    case Err(e) => (Err(e), cache)
    case Ok(hit) =>
      if hit then (Ok(cache[key]), cache)
      else match Parse(key)
        case Err(e) => (Err(e), cache)
        case Ok(tree) => (Ok(tree), if key == ProtoKey then cache else cache[key := tree])
  }

  /** TSSprintf.sprintf as written: its output and the cache after it. The
      nested call for a missing-property message goes through the same hit
      test; formatting the message itself cannot fail (MissingPropertyMessage). */
  function SprintfAsWritten(cache: map<string, seq<Segment>>, fmt: string, args: seq<Value>): (res: (Result<string, Error>, map<string, seq<Segment>>))
    requires Faithful(cache)
    ensures Faithful(res.1)
    ensures res.0.Ok? ==> res.0 == Format(fmt, args)
  {
    var (tree, c) := LookupAsWritten(cache, fmt);
    if tree.Err? then (Err(tree.error), c)
    else
      var r := Render.Render(tree.value, args);
      if r.Err? && r.error.MissingProperty? then
        var (message, c2) := LookupAsWritten(c, MissingPropertyTemplate);
        (if message.Err? then Err(message.error) else r, c2)
      else (r, c)
  }

  /** Until "hasOwnProperty" is used as a template, the code as written
      behaves like the corrected engine: same output, same cache. The one
      other template it treats differently is "__proto__" (ProtoIsNeverCached). */
  lemma AsWrittenAgreesUntilShadowed(cache: map<string, seq<Segment>>, fmt: string, args: seq<Value>)
    requires Faithful(cache) && "hasOwnProperty" !in cache && fmt != "hasOwnProperty" && fmt != ProtoKey
    ensures SprintfAsWritten(cache, fmt, args) == (Format(fmt, args), CacheAfter(cache, fmt, Format(fmt, args)))
  {
    var r := Format(fmt, args);
    if r.Err? && r.error.MissingProperty? {
      MissingPropertyMessage(r.error.key);
    }
  }

  /** sprintf("__proto__") parses its template on every call and never adds
      it to the cache; once "hasOwnProperty" is cached it throws, since the
      prototype it reads is truthy. */
  lemma ProtoIsNeverCached(cache: map<string, seq<Segment>>, fmt: string, args: seq<Value>)
    requires Faithful(cache) && fmt == ProtoKey
    ensures SprintfAsWritten(cache, fmt, args)
      == (if "hasOwnProperty" in cache then Err(TypeError("hasOwnProperty")) else Ok(fmt), cache)
  {
    PlainTextFormatsToItself(fmt, args);
    TemplateLaws.NoPercentIsOneLiteral(fmt);
  }

  /** Once "hasOwnProperty" is cached, every call on a cached template throws. */
  lemma ShadowedCacheThrows(cache: map<string, seq<Segment>>, fmt: string, args: seq<Value>)
    requires Faithful(cache) && "hasOwnProperty" in cache && fmt in cache
    ensures SprintfAsWritten(cache, fmt, args).0 == Err(TypeError("hasOwnProperty"))
    ensures Format(fmt, args) == Render.Render(cache[fmt], args)
  {
  }

  /** The second call of sprintf("hasOwnProperty") throws, where the first
      returned the template's text. */
  lemma HasOwnPropertyTwice(fmt: string, args: seq<Value>)
    requires fmt == "hasOwnProperty"
    ensures SprintfAsWritten(map[], fmt, args).0 == Ok(fmt)
    ensures SprintfAsWritten(SprintfAsWritten(map[], fmt, args).1, fmt, args).0 == Err(TypeError("hasOwnProperty"))
    ensures Format(fmt, args) == Ok(fmt)
  {
    PlainTextFormatsToItself(fmt, args);
    TemplateLaws.NoPercentIsOneLiteral(fmt);
  }
}
