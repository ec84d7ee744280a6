# insertnum: sprintf templates and the number inserter, in Dafny

This project models the core of a small editor extension that writes a
numbered sequence into every selection. It has two parts.

- **TSSprintf**, a port of the `sprintf` formatter.
  - `parse` cuts a template into literal runs and placeholders of the form
    `% [N$ | (key.path)] [+] [0 | 'c] [-] [width] [.precision] conversion`.
  - `format` renders that parse tree against the arguments. It picks each
    argument, converts it, then adds the sign and the padding.
  - `sprintf` keeps a process-wide cache of parse trees, keyed by template.
- **NumInserter**, which builds on it.
  - `parseUserInput` reads the override string `fmt` or `fmt:start:step`.
  - `insertNumbers` calls `sprintf(fmt, cur)` once per selection and adds
    `step` to `cur` after each call.
  - `InsertSettngs.updateSettings` reads the `insertnum` configuration and
    falls back to `"%d"`, 0 and 1.

Modules:

- `Wrappers` holds `Option`, `Result` and the error kinds.
- `Strings` holds `split`, join and repeat.
- `JsNumbers` and `JsValues` model the JavaScript runtime operations the
  formatter relies on:
  - `parseInt` and `parseFloat`;
  - `toString(radix)`, `toFixed`, `toExponential` and `toPrecision` on
    integral values;
  - `String(v)`, `!!v` and `v >= 0`;
  - `hasOwnProperty`.
- `Json` holds `JSON.stringify`.
- `Template` and `TemplateLaws` cover `parse`; `PatternLaws` prints
  placeholders and proves that the pattern reads them back.
- `Render` and `RenderLaws` cover `format`.
- `Sprintf` covers the cache and `sprintf`.
- `NumInserter` covers the extension logic.

The models take two forms.

- **Loops become methods.** Code that works by a loop is a method proved
  equal to a specification function:
  - `Template.ParseTemplate` and `Template.TokenizeKey` against
    `Template.Parse` and `Template.KeyPath`;
  - `Render.FormatTree` against `Render.Render`;
  - `NumInserter.InsertNumbers` against `NumInserter.NumbersFrom`.
- **Mutable state becomes a class.** The cache is the field of
  `Sprintf.Engine`, and the settings are the fields of
  `NumInserter.InsertSettings`.

The editor is abstracted:

- to a number of selections;
- to the strings that replace them, in order, or the error that ends the
  edit.

A thrown exception is an `Err` value carrying the kind of error.

## Model

| member | source | states |
|---|---|---|
| Template.MatchPlaceholder | src/TSSprintf.ts:19 | the placeholder pattern at the front of a string: a match is at least 2 characters long, starts with '%' and ends in its conversion character, one of b-g i j o s t T u v x X; a position excludes a name. What each group holds is pinned by PatternLaws.MatchPrinted |
| Template.KeyPath | src/TSSprintf.ts:164-181 | splitting a named key into its keys fails only with the malformed-key error |
| Template.TokenizeKey | src/TSSprintf.ts:164-181 | the key tokenizer loop returns exactly KeyPath of the field |
| Template.Peel | src/TSSprintf.ts:154-195 | one scan step: its segment spells the characters it consumes; a literal is "%%" or a '%'-free run; a failure happens only at a '%' that does not start "%%" and is unexpected-placeholder or malformed-key; such a '%' that the pattern does not match is an unexpected placeholder, and a matched name whose key path is malformed is the malformed-key error |
| PatternLaws.MatchPrinted | src/TSSprintf.ts:19 | for every placeholder the pattern can express, the pattern reads its printed text back, whatever follows: the same position or name, + flag, pad, - flag, width, precision and conversion, and the printed length |
| PatternLaws.PeelPrinted | src/TSSprintf.ts:154-195 | a printed placeholder whose key path reads is one scan step yielding that placeholder with its key path |
| PatternLaws.NoMatchIsUnexpected | src/TSSprintf.ts:192-194 | a template starting with a '%' that is neither "%%" nor matched by the pattern fails with unexpected placeholder |
| Template.ParseFrom | src/TSSprintf.ts:152-198 | the scan loop from a position with the arg_names mask: every tree it returns has a conversion at every placeholder; every error is a parse error |
| Template.Parse | src/TSSprintf.ts:152-198 | parse: a well-formed tree or a parse error |
| Template.ScanPlaceholder | src/TSSprintf.ts:161-186 | the placeholder branch of the loop returns exactly what Peel returns |
| Template.ParseTemplate | src/TSSprintf.ts:152-198 | the while loop with its mask returns exactly Parse(fmt) |
| TemplateLaws.ScanCovers | src/TSSprintf.ts:154-196 | the segments of a scan spell the scanned text, segment by segment |
| TemplateLaws.TreeMask | src/TSSprintf.ts:162-186 | bit 1 of a tree's mask is set exactly when the tree has a named placeholder, and bit 2 exactly when it has an unnamed one |
| TemplateLaws.ParseFromIsScan | src/TSSprintf.ts:185-189 | the parse loop succeeds exactly when the scan without the mixing rule succeeds and the mask stays below 3; it then returns the same tree, and otherwise fails with the mixing error |
| TemplateLaws.MixingRule | src/TSSprintf.ts:162-189 | a template parses exactly when it scans and does not use both a named and an unnamed placeholder; mixing is reported as MixedPlaceholders |
| TemplateLaws.ParseCovers | src/TSSprintf.ts:152-198 | every parse tree spells out its template |
| TemplateLaws.TextEndAt | src/TSSprintf.ts:17 | the literal run ends at the first '%' |
| TemplateLaws.LiteralFrom | src/TSSprintf.ts:155-157 | '%'-free text is one literal, whatever the mask so far |
| TemplateLaws.NoPercentIsOneLiteral | src/TSSprintf.ts:155-157 | a template without '%' parses to one literal |
| TemplateLaws.TrailingPercentFails | src/TSSprintf.ts:192-194 | a lone '%' at the end is an unexpected placeholder |
| TemplateLaws.EscapedPercent | src/TSSprintf.ts:158-160 | "%%" is the literal "%" |
| TemplateLaws.UnknownConversionFails | src/TSSprintf.ts:19 | "%z" is an unexpected placeholder |
| TemplateLaws.FullOptions | src/TSSprintf.ts:19 | in "%+'*-8.3f" the groups read plus, pad '*', left, width 8 and precision 3 |
| TemplateLaws.FullMatch | src/TSSprintf.ts:19 | the pattern matches all 9 characters of "%+'*-8.3f" with those options and conversion 'f' |
| TemplateLaws.FullPeel | src/TSSprintf.ts:161-190 | the scan step on "%+'*-8.3f" yields that placeholder |
| TemplateLaws.FullPlaceholder | src/TSSprintf.ts:152-198 | "%+'*-8.3f" parses to one placeholder with those options |
| TemplateLaws.NamedMatch | src/TSSprintf.ts:19 | in "%(x)s %d" the pattern matches "%(x)s" with name x |
| TemplateLaws.NamedPeel | src/TSSprintf.ts:162-183 | the scan step on "%(x)s %d" yields a placeholder with key path ["x"] |
| TemplateLaws.ImplicitAfterNamed | src/TSSprintf.ts:185-189 | after a named placeholder, " %d" fails with the mixing error |
| TemplateLaws.NamedThenImplicitFails | src/TSSprintf.ts:185-189 | "%(x)s %d" is rejected as mixing |
| TemplateLaws.PositionalPeel | src/TSSprintf.ts:19 | "%2$s" is a placeholder reading position 2 |
| TemplateLaws.SimplePeel | src/TSSprintf.ts:161-190 | "%c" for a conversion c is an implicit placeholder with no options |
| TemplateLaws.SimpleMatch | src/TSSprintf.ts:19 | the pattern on "%c" matches all of it with every group empty |
| TemplateLaws.SimpleTemplate | src/TSSprintf.ts:152-198 | "%c" alone parses to that one placeholder |
| TemplateLaws.StringPeel | src/TSSprintf.ts:161-190 | "%s" at the front of any text is a plain implicit placeholder of length 2 |
| TemplateLaws.LeadingLiteral | src/TSSprintf.ts:155-157 | a '%'-free run up to the first '%' is the first segment |
| TemplateLaws.StringThenLiteral | src/TSSprintf.ts:152-198 | "%s" followed by '%'-free text parses to the placeholder and the literal |
| TemplateLaws.StringBetweenLiterals | src/TSSprintf.ts:152-198 | a + "%s" + b with '%'-free a and b parses to literal, placeholder, literal |
| TemplateLaws.PositionalWithImplicit | src/TSSprintf.ts:184-189 | positional and implicit placeholders may share a template: "%2$s%s" parses |
| TemplateLaws.LoneImplicit | src/TSSprintf.ts:184-190 | under mask 2, "%s" parses to one implicit placeholder |
| TemplateLaws.AccessorsTextStart | src/TSSprintf.ts:168-172 | every accessor text starts with '.' or '[' |
| TemplateLaws.AccessorAtText | src/TSSprintf.ts:168-172 | one accessor is read back from its text, whatever accessor follows |
| TemplateLaws.AccessorsRoundTrip | src/TSSprintf.ts:167-177 | accessors printed from keys are read back as the same keys |
| TemplateLaws.AccessorsCover | src/TSSprintf.ts:167-177 | the keys read from accessors print back to that text, and each is an identifier or an index |
| TemplateLaws.KeyPathCovers | src/TSSprintf.ts:164-181 | a key path's keys are well-formed and print back to the field they were read from |
| TemplateLaws.KeyPathRoundTrip | src/TSSprintf.ts:164-181 | well-formed keys survive printing and reading back |
| Render.Walk | src/TSSprintf.ts:55-63 | the key walk fails only on a non-empty path: with a TypeError (hasOwnProperty on undefined or null), or with a missing property named by one of the keys; RenderLaws.AbsentKeyIsMissing and RenderLaws.MissingKeyWasAbsent say which key |
| RenderLaws.AbsentKeyIsMissing | src/TSSprintf.ts:55-60 | a key the walk finds absent (the keys before it own properties, the value reached neither undefined nor null) raises the missing-property error naming exactly that key |
| RenderLaws.MissingKeyWasAbsent | src/TSSprintf.ts:55-60 | conversely, a missing-property error from the walk names a key the walk found absent |
| RenderLaws.NamedPlaceholderMissingKey | src/TSSprintf.ts:55-63 | a named placeholder at the front whose walk finds a key absent stops the format with that key's error |
| Render.Resolve | src/TSSprintf.ts:55-69 | an implicit placeholder reads argv[cursor] and advances the cursor by one; "N$" reads argv[N] and leaves the cursor; a key path leaves the cursor |
| Render.Truncate | src/TSSprintf.ts:107 | with precision p the text keeps exactly its first min(p, length) characters; without one, it is unchanged |
| Strings.Prefix | src/TSSprintf.ts:107 | `substring(0, n)` is the first min(n, length) characters |
| Render.IntArg | src/TSSprintf.ts:81-88 | parseInt(arg, 10) is NaN or an integer |
| Render.Upper | src/TSSprintf.ts:128 | toUpperCase keeps the length and upper-cases exactly the ASCII lower-case letters |
| Render.CharOf | src/TSSprintf.ts:84 | String.fromCharCode(k) is the character k outside the surrogate range |
| Render.IntegerConversion | src/TSSprintf.ts:80-128 | the b, c, d, i, u, x and X conversions fail only on what the model leaves out |
| Render.FloatConversion | src/TSSprintf.ts:93-101 | the e, f and g conversions fail only with what is not modelled or a RangeError |
| Render.TextConversion | src/TSSprintf.ts:90-123 | the j, o, s, t, T and v conversions fail only with a runtime error |
| Render.Convert | src/TSSprintf.ts:79-130 | the conversion switch fails only with a runtime error |
| Render.StripSign | src/TSSprintf.ts:137 | at most one leading '+' or '-' is removed, and the result is a suffix of the input |
| Render.StrRepeat | src/TSSprintf.ts:212-217 | str_repeat(c, n) is n copies of c, from the table for n up to 7 and by joining otherwise |
| Render.Layout | src/TSSprintf.ts:142-145 | the padding rule: no padding when the width is absent or met. Otherwise the result is exactly width long: padding after the text when left-justified, between sign and text with '0', and in front of both otherwise |
| Render.RenderDirective | src/TSSprintf.ts:70-146 | rendering one placeholder fails only with a runtime error |
| Render.RenderFrom | src/TSSprintf.ts:46-150 | the format loop from a segment and cursor fails only with a runtime error or a missing property |
| Render.Render | src/TSSprintf.ts:46-150 | format fails only with a runtime error or a missing property |
| Render.FormatTree | src/TSSprintf.ts:46-150 | the loop over the tree, with its inner key walk, returns exactly Render(tree, argv) |
| JsValues.TypeName | src/TSSprintf.ts:200-210 | get_type gives "number" or "string" from typeof, else the lower-cased tag: one of seven names |
| JsValues.FieldIndex | src/TSSprintf.ts:58 | the own-property lookup finds the key's position exactly when the key is present |
| Json.Stringify | src/TSSprintf.ts:91 | JSON.stringify yields undefined exactly for undefined |
| JsNumbers.ParseInt | src/TSSprintf.ts:88 | parseInt yields NaN or an integer |
| JsNumbers.ParseIntRoundTrip | src/TSSprintf.ts:88 | parseInt(String(n), 10) is n for every integer below 10^21 |
| JsNumbers.HexNeedsAnX | src/NumInserter.ts:146 | parseInt without a radix equals parseInt(s, 10) on text without 'x' or 'X' |
| JsNumbers.ToUint | src/TSSprintf.ts:118 | `>>> 0` and the char-code conversion give the truncated value reduced modulo 2^32 or 2^16: below the modulus and congruent to the truncation; 0 for NaN and the infinities |
| RenderLaws.IntArgOfInteger | src/TSSprintf.ts:88 | an integer argument below 10^21 comes through parseInt unchanged |
| RenderLaws.ConvertInteger | src/TSSprintf.ts:86-89 | %d and %i convert an integer below 10^21 to its decimal string |
| RenderLaws.IntegerNeverFails | src/TSSprintf.ts:86-89 | %d and %i never fail on an integer, however large |
| RenderLaws.IntegerText | src/TSSprintf.ts:137 | an integer's decimal string is its digits with '-' in front when negative; stripping the sign gives the digits |
| RenderLaws.IntegerDirective | src/TSSprintf.ts:76-145 | %d and %i write an integer's digits, with its sign ('-', or '+' under the flag), laid out for the width |
| RenderLaws.ParseIntOfPlusDigits | src/TSSprintf.ts:88 | parseInt reads "+" followed by digits |
| RenderLaws.IntegerRoundTrip | src/TSSprintf.ts:76-145 | without a width, parseInt reads back the integer %d wrote, with or without the + flag |
| RenderLaws.SignedDigitsRoundTrip | src/TSSprintf.ts:135-137 | parseInt reads back an integer's digits behind the sign %d writes |
| RenderLaws.ZeroPaddedExample | src/TSSprintf.ts:142-145 | "%05d" on 42 is "00042" |
| RenderLaws.LeftJustifiedExample | src/TSSprintf.ts:145 | "%-5d" on 3 is "3    " |
| RenderLaws.PlusExample | src/TSSprintf.ts:135-136 | "%+d" on 7 is "+7", and on -7 is "-7" |
| RenderLaws.NegativeZeroPaddedExample | src/TSSprintf.ts:145 | "%05d" on -42 is "-0042": the zero pad goes between the sign and the digits |
| RenderLaws.SignedDirective | src/TSSprintf.ts:76-145 | for d, i, e, f and g the sign comes from `arg >= 0` on the argument as given, and replaces any sign in the text |
| RenderLaws.NoNumber | src/TSSprintf.ts:77 | "abc" is NaN as a number and has no integer prefix |
| RenderLaws.NumberPrefix | src/TSSprintf.ts:77-88 | "5abc" is NaN as a number, but its integer prefix is 5 |
| RenderLaws.ConvertNaN | src/TSSprintf.ts:86-89 | %d of an argument with no integer prefix is "NaN" |
| RenderLaws.ConvertPrefix | src/TSSprintf.ts:86-89 | %d writes the digits of the argument's integer prefix |
| RenderLaws.MinusDigits | src/TSSprintf.ts:135-145 | a '-' in front of the digits of k, which have no sign to strip |
| RenderLaws.NotANumberGetsMinus | src/TSSprintf.ts:73-89 | "%d" on an argument that fails `>= 0` and has no integer prefix is "-NaN" |
| RenderLaws.NumberPrefixGetsMinus | src/TSSprintf.ts:73-89 | "%d" on an argument that fails `>= 0` but has integer prefix k is "-" followed by the digits of k |
| RenderLaws.PlusOnlyForSigned | src/TSSprintf.ts:135 | only d, i, e, f and g look at the + flag |
| RenderLaws.JsonIgnoresLayout | src/TSSprintf.ts:90-92 | j ignores sign, pad and justification: the output is the JSON text, and the width only sets its indentation |
| RenderLaws.UnsignedIsText | src/TSSprintf.ts:139-145 | without a width, the unsigned conversions write their text as it is |
| RenderLaws.UnsignedDirective | src/TSSprintf.ts:139-145 | the unsigned conversions get no sign; their text is only padded |
| RenderLaws.RadixOfInteger | src/TSSprintf.ts:81 | toString(radix) of an integer is its digits in that radix, with '-' when negative |
| RenderLaws.ConvertHex | src/TSSprintf.ts:124-129 | %x of an integer below 10^21 is its hex digits with '-' when negative; %X upper-cases them |
| RenderLaws.UnsignedConversionKeepsMinus | src/TSSprintf.ts:124-145 | %x keeps the minus sign in its text, so the zero pad goes in front of it: "%05x" on -255 is "00-ff" |
| RenderLaws.NoInteger | src/TSSprintf.ts:128 | "zz" has no integer prefix |
| RenderLaws.UpperHexExample | src/TSSprintf.ts:127-128 | "%X" on 255 is "FF" |
| RenderLaws.UpperNaN | src/TSSprintf.ts:127-128 | "%X" on an argument with no integer prefix is "NAN" |
| RenderLaws.UpperNaNText | src/TSSprintf.ts:128 | the X conversion of NaN is "NAN" |
| RenderLaws.TextTruncates | src/TSSprintf.ts:105-123 | with precision p, the text of s, t, T and v is exactly the first min(p, length) characters of their text without a precision |
| RenderLaws.PrecisionTruncates | src/TSSprintf.ts:105-123 | the same holds for the rendered placeholder: exactly the first min(p, length) characters of what it writes without a precision |
| RenderLaws.StringWrites | src/TSSprintf.ts:105-108 | "%s" with no width and no precision writes a string argument as it is |
| RenderLaws.ImplicitStep | src/TSSprintf.ts:67-69 | an implicit placeholder renders argv[cursor] and advances the cursor by one |
| RenderLaws.PositionalStep | src/TSSprintf.ts:64-66 | a positional placeholder "N$" renders argv[N] and leaves the cursor where it is |
| RenderLaws.ImplicitArgumentsInOrder | src/TSSprintf.ts:67-69 | consecutive "%s" placeholders take the arguments in order, one each, and the output is their concatenation |
| RenderLaws.PlainDecimal | src/TSSprintf.ts:86-89 | a plain "%d" on an integer below 10^21 writes its decimal string |
| RenderLaws.LoneImplicitRenders | src/TSSprintf.ts:67-69 | a tree of one implicit placeholder writes what it writes for argv[0] |
| RenderLaws.LiteralRenders | src/TSSprintf.ts:50-52 | a literal renders as itself, whatever the arguments |
| RenderLaws.StringBetweenLiteralsRenders | src/TSSprintf.ts:48-69 | literal, "%s", literal renders its string argument between the two literals |
| RenderLaws.PositionalReadsNextIndex | src/TSSprintf.ts:64-66 | "%1$s" reads argv[1], the second argument |
| RenderLaws.KeyPathExample | src/TSSprintf.ts:55-63 | a key path reads nested own properties of the cursor's argument |
| RenderLaws.MissingKeyIsNamed | src/TSSprintf.ts:58-60 | a missing-property error names a key that the walk of some named placeholder of the template, from the argument at the cursor there, found absent |
| Sprintf.Format | src/TSSprintf.ts:37-44 | the output of sprintf is a parse error exactly when the template does not parse; otherwise it is what format gives |
| Sprintf.PlainTextFormatsToItself | src/TSSprintf.ts:37-44 | a template without '%' comes out as it is, whatever the arguments |
| Sprintf.DecimalOfInteger | src/TSSprintf.ts:86-89 | sprintf("%d", n) is the decimal string of an integer below 10^21 |
| Sprintf.DecimalNeverFails | src/TSSprintf.ts:37-44 | sprintf("%d", n) never fails on an integer n |
| Sprintf.MessageTemplateParses | src/TSSprintf.ts:59 | the template of the missing-property message parses to literal, "%s", literal |
| Sprintf.MissingPropertyMessage | src/TSSprintf.ts:59 | that template formats the key between the quotes of the message |
| Sprintf.Remember | src/TSSprintf.ts:40-42 | a cached template is not parsed again. A new one is added exactly when it parses. No other entry changes, and every cached tree stays the parse tree of its own template |
| Sprintf.CacheAfter | src/TSSprintf.ts:37-59 | after a call, the template is cached if it parses; no entry changes; the only possible new entries are the template and the message template; faithfulness is kept |
| Sprintf.CachedTemplateIsNotParsedAgain | src/TSSprintf.ts:40-42 | a call on a cached template leaves the cache as it is, unless it raises a missing property |
| Sprintf.Engine.constructor | src/TSSprintf.ts:32 | the cache starts empty |
| Sprintf.Engine.Lookup | src/TSSprintf.ts:38-42 | the hit test and miss path return Parse(key), and the cache becomes Remember(old cache, key) |
| Sprintf.Engine.Sprintf | src/TSSprintf.ts:37-44 | sprintf returns exactly Format(fmt, args); the cache becomes CacheAfter(old cache, fmt, result) and stays faithful |
| Sprintf.HitAsWritten | src/TSSprintf.ts:40 | the hit test as written: a result is true exactly for a cached key other than "__proto__". It throws exactly when "hasOwnProperty" is cached and the key is cached or inherited ("__proto__" included) |
| Sprintf.LookupAsWritten | src/TSSprintf.ts:38-42 | the lookup as written returns a tree only if it is the parse tree, keeps the cache faithful, and leaves the cache unchanged for "__proto__" |
| Sprintf.SprintfAsWritten | src/TSSprintf.ts:37-44 | sprintf as written, when it returns, returns Format(fmt, args), and keeps the cache faithful |
| Sprintf.AsWrittenAgreesUntilShadowed | src/TSSprintf.ts:40 | while "hasOwnProperty" is neither cached nor the template, and the template is not "__proto__", the code as written gives the same output and cache as Engine.Sprintf |
| Sprintf.ProtoIsNeverCached | src/TSSprintf.ts:40-41 | sprintf("__proto__") as written parses its template on every call and never changes the cache; it returns its text, or throws once "hasOwnProperty" is cached |
| Sprintf.ShadowedCacheThrows | src/TSSprintf.ts:40 | once "hasOwnProperty" is cached, every call on a cached template throws a TypeError, though its tree is there |
| Sprintf.HasOwnPropertyTwice | src/TSSprintf.ts:40-43 | sprintf("hasOwnProperty") returns its text the first time and throws the second time |
| Strings.Count | src/NumInserter.ts:133 | the count is positive exactly when the character occurs |
| Strings.Split | src/NumInserter.ts:135 | split gives one more piece than there are separators; no piece holds the separator; joining the pieces gives the text back |
| Strings.SplitLimit | src/NumInserter.ts:135 | split with a limit gives the first pieces of the full split: as many as the limit, or all when there are fewer |
| Strings.SplitWithout | src/NumInserter.ts:135 | text without the separator is one piece |
| Strings.SplitAround | src/NumInserter.ts:135 | splitting at a separator splits the two sides apart |
| Strings.SplitTwo | src/NumInserter.ts:135 | two separator-free fields joined by the separator split back apart |
| Strings.SplitThree | src/NumInserter.ts:135 | three separator-free fields joined by the separator split back apart |
| Strings.SplitLimitDropsRest | src/NumInserter.ts:135 | with a limit of as many pieces as the head has, whatever follows the next separator is dropped |
| Strings.SplitJoin | src/NumInserter.ts:135 | separator-free pieces come back from their join |
| NumInserter.ParseUserInput | src/NumInserter.ts:114-162 | None exactly when the input has no '%' (the empty input included). Exactly one ':' throws at `strStep.includes`. With a ':', the template is the ':'-free first field |
| NumInserter.WholeInputIsTemplate | src/NumInserter.ts:156-159 | without ':' the whole input is the template, counted from 0 in steps of 1 |
| NumInserter.IntegerField | src/NumInserter.ts:142-154 | an integer's decimal string has no '.' or ':' and reads back as that integer |
| NumInserter.ThreeFields | src/NumInserter.ts:133-155 | "fmt:start:step" is read field by field |
| NumInserter.UserInputRoundTrip | src/NumInserter.ts:133-155 | "fmt:a:b" with integers a and b reads back the template and the two integers |
| NumInserter.ExtraFieldsIgnored | src/NumInserter.ts:135 | a fourth field and anything after it is ignored |
| NumInserter.Counter | src/NumInserter.ts:97-106 | a NaN step makes `cur` NaN from the second selection on |
| NumInserter.CounterValue | src/NumInserter.ts:97-106 | with finite settings the i-th value of `cur` is exactly start + i * step |
| NumInserter.IntegerCounter | src/NumInserter.ts:97-106 | integer start and step keep `cur` an integer |
| NumInserter.NumbersFrom | src/NumInserter.ts:97-109 | one string per selection, the k-th being the output for the k-th value of `cur`, or the first error |
| NumInserter.InsertNumbers | src/NumInserter.ts:87-112 | the loop, through the shared engine, returns exactly NumbersFrom for the template, start, step and selection count. The cache stays faithful, keeps its entries and gains at most the template and the message template; after a first selection the template is cached exactly when it was already or it parses |
| NumInserter.CacheGrows | src/NumInserter.ts:103-105 | one more sprintf of the template keeps the cache grown: old entries kept, new keys only the template or the message template, and the template cached exactly when it was or it parses |
| NumInserter.DecimalNumbering | src/NumInserter.ts:103-107 | with integer settings, "%d" succeeds on every selection and writes start + k * step into selection k |
| NumInserter.DecimalNumberingSucceeds | src/NumInserter.ts:103-107 | with integer settings, "%d" never ends the edit with an error, for any number of selections |
| NumInserter.IntegersNeverFail | src/NumInserter.ts:97-109 | a per-selection output that accepts every integer never stops a numbering with integer start and step |
| NumInserter.DecimalSprinter | src/NumInserter.ts:105 | one selection under "%d" with an integer value |
| NumInserter.FromConfig | src/NumInserter.ts:48-64 | the settings fall back to "%d", 0 and 1 for falsy values (absent, "", 0, NaN) and keep truthy ones; the template is never empty and the step is never falsy |
| NumInserter.ZeroStepBecomesOne | src/NumInserter.ts:60-64 | a configured step of 0 becomes 1 |
| NumInserter.InsertSettings.constructor | src/NumInserter.ts:29-36 | the settings are read from the configuration on construction |
| NumInserter.InsertSettings.UpdateSettings | src/NumInserter.ts:39-66 | the fields become FromConfig of the configuration read |

## Quirks of the code

The model follows the code, including these behaviours of it.

- **The numeric type check never fires.** The TypeError at
  src/TSSprintf.ts:73-74 ("expecting number") can never be thrown. Its
  pattern `numeric_arg` (src/TSSprintf.ts:14) is `bcdiefguxX` without
  brackets, so it matches only that literal ten-character string, never a
  one-character conversion. The message shows the numeric check that was
  meant. The model has no type-mismatch error.
- **The sign comes from the raw argument.** `is_positive` is `arg >= 0` on
  the argument as given (src/TSSprintf.ts:77), before parseInt, and the
  sign is added at src/TSSprintf.ts:135-137. So "%d" on "abc" gives "-NaN",
  and on "5abc" it gives "-5" (RenderLaws.NotANumberGetsMinus,
  RenderLaws.NumberPrefixGetsMinus).
- **The unsigned conversions keep their minus sign.** It stays inside their
  text, so "%05x" on -255 gives "00-ff" (src/TSSprintf.ts:124-145). "%X"
  upper-cases "NaN" to "NAN" (src/TSSprintf.ts:128).
- **JSON indent comes from the width.** `j` takes its indentation from the
  width group, `match[6]` (src/TSSprintf.ts:91).
- **"N$" reads `argv[N]`.** It indexes the rest-argument array `args`
  (src/TSSprintf.ts:37, 65), which does not hold the template. So "%1$s"
  reads the second argument (RenderLaws.PositionalReadsNextIndex).
- **Exactly one ':' throws.** With one ':' in the override string,
  `split(":", 3)` gives two fields, `strStep` is undefined and
  `strStep.includes` throws a TypeError (src/NumInserter.ts:135-149,
  NumInserter.ParseUserInput).

## Left out

- Floating-point formatting. A non-integral finite number rendered by %d
  through %X, %e, %f, %g or String(x) yields the NotModelled error.
  Numbers are exact reals: no IEEE-754 rounding and no 2^53 limit.
  Integral values are written exactly, including the exponent form from
  10^21 on.
- NumInserter.Counter: `cur += step` is exact real addition. The source
  accumulates floating-point rounding error for fractional steps.
- Function arguments: the lazy call `arg()` (src/TSSprintf.ts:70-72) is
  left out, because values here hold no functions.
- Strings are sequences of Unicode scalar values, not UTF-16 code units.
  `String.fromCharCode` of a lone surrogate gives U+FFFD (Render.CharOf).
- Sprintf.Engine.Sprintf: a thrown error carries its kind and, for a
  missing property, the key. The message text is not kept, but the
  message is still formatted through the cache, as the code does.
- Own-property lookup on arguments. An object's own keys are its listed
  fields. A field named "hasOwnProperty" in an argument does not shadow
  the method (unlike the cache, see Findings), and "__proto__" is an
  ordinary key.
- The editor is left out: the active editor, `edit` and `builder.replace`,
  `showInputBox`, `showErrorMessage`, `getConfiguration`,
  `onDidChangeConfiguration`, `Disposable` and `dispose`. Selections are a
  count. The input box result and the configuration are parameters.
- NumInserter.InsertNumbers: an error ends the edit with that error. The
  source throws inside the edit callback, and whether the editor keeps
  the replacements made before it is not modelled.
- PatternLaws.MatchPrinted: the round trip covers the placeholders the
  pattern can express. A bare width 0 is left out because the pattern
  reads that `0` as the zero pad. A position 0, an empty name or a name
  holding ')', and a quoted pad '$' are left out because the pattern
  cannot match them. Template.MatchPlaceholder itself is defined on every
  string.
- Sprintf.HitAsWritten: storing the tree of "__proto__" replaces the cache
  object's prototype. The model keeps only what follows for "__proto__"
  itself: it is never cached and it reads truthy. Names that the new
  prototype (an array) would make truthy, such as "length" or "push", are
  not modelled.
- Render.StrRepeat: `Array(multiplier + 1)` throws a RangeError for a
  width of 2^32 - 2 or more, and the join throws past the engine's maximum
  string length. The model returns the padding string in both cases.
- NumInserter.InsertNumbers: it runs on the corrected Engine.Sprintf, not
  on Sprintf.SprintfAsWritten. The settings do no format check, so a
  configured template "hasOwnProperty" throws in the source on the second
  selection. So does any later insert with a cached template once
  "hasOwnProperty" is cached. The model does not throw in either case.
  Sprintf.AsWrittenAgreesUntilShadowed gives the conditions under which
  the two agree.
- `processInsert` is left out. It is the promise plumbing that runs the
  default pass, waits for the input box and then runs the override pass.
- The `!settings` guard in `updateSettings` is left out, because
  `getConfiguration` never returns a falsy value.
- Configuration values of the wrong type are left out: each entry is
  absent or of its declared type.
- src/extension.ts (activation and command registration) is not part of
  this model.

## Findings

| source | as written | input that shows it | evidently intended | confidence | as-written member | corrected member |
|---|---|---|---|---|---|---|
| src/TSSprintf.ts:40 | the hit test `cache[key] && cache.hasOwnProperty(key)` calls `hasOwnProperty` on the cache object itself, so once a template "hasOwnProperty" is cached its parse tree (an array) shadows the method | `sprintf("hasOwnProperty")` twice: the first call returns "hasOwnProperty", the second throws a TypeError, and from then on every call with a cached template throws | test for an own entry with `Object.prototype.hasOwnProperty.call(cache, key)`, so that any template can be cached | not executed | Sprintf.SprintfAsWritten, Sprintf.HasOwnPropertyTwice | Sprintf.Engine.Sprintf |
