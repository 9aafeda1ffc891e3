# semijson in Dafny

A model of semijson, a Go package that reads relaxed, JavaScript-flavoured JSON and writes
canonical JSON. Relaxed JSON means bare identifier keys, single- or double-quoted strings,
`undefined`, and `new Date(y, m, d, ...)`. All of the package's logic is in `parser.go`,
which has three parts:

- **The value tree** (`JValue`, `JLiteral`, `JBoolean`, `JObject`, `JField`, `JArray`, `JDate`).
  The grammar sits in their struct tags.
- **The `JSON()` methods** that serialise the tree.
- **The participle lexer rules and parser options** built in `newParser`.

The model follows the same structure:

| module | file | what it holds |
|---|---|---|
| `Ast` | ast.dfy | the value tree as Go lays it out: each alternative an optional field; `WellFormed` says exactly one is set |
| `Serializer` | serializer.dfy | the `JSON()` methods; `JBoolean` as a class with `Capture`; the builder loops of `JObject.JSON`, `JArray.JSON` and `JDate.JSON` as methods proved equal to the pure functions |
| `Numbers`, `FloatFormat`, `Quoting` | numbers.dfy, float_format.dfy, quoting.dfy | `strconv.Itoa`, `%0Nd`, `%g` on the decimal the parser read, and `%q`; plus the unquoting participle applies to String tokens |
| `Chars`, `Lexer` | chars.dfy, lexer.dfy | the six lexer rules tried in order, first match wins; whitespace elided; strings unquoted; the String rule is the intended one, where a backslash escapes any character (see "## Findings") |
| `Parser` | parser.dfy | the struct-tag grammar as ordered choice over the tokens; digit runs converted to `uint16`, `uint8`, `uint64` and `int64` with range checks |
| `ParseWellFormed` | parse_wellformed.dfy | every value the parser builds is well formed |
| `Rendering`, `Source` | render.dfy, source.dfy | a semi-JSON rendering of a value (`Source.SourceText`: every token followed by a space, so a number is spelled digit by digit, `1 2 ` for 12, and reads back only because whitespace between Digit tokens is elided), and the proof that lexing and parsing it gives the value back |
| `JsonExamples` | examples_json.dfy | the repository's parse-then-serialise cases for `null`, `undefined`, `true`, `false`, the single-quoted string `'abcdefg'` and the date `new Date(1970, 01, 01)` with zero-padded digit runs |

A quoted literal of the grammar (`"true"`, `","`, `"new"`) matches any token with that text,
whatever the token's kind. This is how participle matches literals when the grammar gives
no token type. As a result, the String `'true'` reads back as the Boolean `true`.

The rules also have no word boundary. An identifier that begins with `null` or `undefined`
is lexed as a Null token followed by the rest of the word. The round trip
`Source.SourceRoundTrip` therefore requires `Source.Plain`: no String spelled `true` or
`false`, and no key beginning with `null` or `undefined`. Under that condition, every
well-formed value lexes and parses back from its source text.

## Model

| member | source | states |
|---|---|---|
| Serializer.ValueJSON | parser.go:21-32 | the contract states when the JSON is empty: exactly when no alternative is set, or the literal set has nothing set; the body dispatches to the first alternative set, in the order Literal, Object, Array, Date |
| Serializer.LiteralJSON | parser.go:53-66 | empty exactly when no alternative of the literal is set; a Null literal prints `null` whichever spelling was read |
| Serializer.JBoolean.Capture | parser.go:44-47 | after Capture the boolean is true exactly when the first captured text is `true` |
| Serializer.BoolJSON | parser.go:49-51 | no contract of its own: `strconv.FormatBool`; stated by `Serializer.JBoolean.JSON` and `Serializer.CaptureRoundTrip` |
| Serializer.JBoolean.JSON | parser.go:49-51 | prints `true` exactly when the value is true and `false` exactly when it is false |
| Serializer.CaptureRoundTrip | parser.go:44-51 | capturing a text and printing it gives the text back exactly when it is `true` or `false` |
| Serializer.ObjectJSON | parser.go:72-83 | the object's JSON opens with `{` and closes with `}`, and is `{}` for no fields |
| Serializer.ObjectJSONBuild | parser.go:72-83 | the builder loop (field JSON, then a comma unless it is the last field) produces `{` + the field JSONs joined by commas + `}` |
| Serializer.FieldsJSONOrder | parser.go:75-76 | the i-th joined element is the i-th field's JSON: field order is kept |
| Serializer.Join | parser.go:75-80 | no contract of its own: the elements separated by commas; stated by `Serializer.JoinCommas`, `Serializer.FieldsJSONOrder` and `Serializer.ValuesJSONOrder` |
| Serializer.JoinCommas | parser.go:77-79 | joining n elements adds exactly n - 1 commas to those inside the elements |
| Serializer.FieldJSON | parser.go:90-92 | no contract of its own: `%q` of the key, a colon, then the value's JSON; the layout is stated by `Serializer.FieldJSONLayout` |
| Serializer.FieldJSONLayout | parser.go:90-92 | a field whose key is an identifier prints as the key in plain double quotes, a colon, then the value's JSON |
| Serializer.ArrayJSON | parser.go:98-109 | the array's JSON opens with `[` and closes with `]`, and is `[]` for no values |
| Serializer.ArrayJSONBuild | parser.go:98-109 | the builder loop produces `[` + the value JSONs joined by commas + `]` |
| Serializer.ValuesJSONOrder | parser.go:101-102 | the i-th joined element is the i-th value's JSON: value order is kept |
| Serializer.DateJSON | parser.go:118-134 | no contract of its own: the date printed at the time taken from MoreValues; stated by `Serializer.DateJSONBuild`, `Serializer.DateJSONTime` and `Serializer.DateTextPunctuation` |
| Serializer.DateJSONBuild | parser.go:118-134 | hour, minute and second start at zero and are overwritten from MoreValues[3], [4] and [5] when present; the text is the date printed at that time |
| Serializer.DateDefaultTime | parser.go:119-128 | with at most three values after the day, the time printed is `T00:00:00Z` |
| Serializer.DateTextPunctuation | parser.go:130-133 | a date whose fields fit their widths prints as 22 characters, `"YYYY-MM-DDThh:mm:ssZ"` with its punctuation at fixed places |
| Serializer.DateTextLayout | parser.go:130-133 | each zero-padded field of such a date reads back to the number it was printed from |
| Serializer.DateJSONTime | parser.go:118-134 | read back, the printed hour, minute and second are MoreValues[3], [4] and [5] (zero when absent) |
| Serializer.DateJSONIntendedTime | parser.go:111-134 | read back, the corrected text carries MoreValues[0], [1] and [2] as hour, minute and second |
| Serializer.DateTimeDiscrepancy | real_cases_test.go:10 | for the date 2021-07-27 with MoreValues [0, 28, 45, 0], which is how this model reads `new Date(2021,7,27,0,28,45,0)`, the code prints 00:00:00 where the arguments mean 00:28:45 |
| Numbers.Itoa | parser.go:62-63 | no contract of its own: `strconv.Itoa`; stated by `Numbers.ItoaRoundTrip` |
| Numbers.ItoaRoundTrip | parser.go:62-63 | an integer prints with a `-` exactly when negative, then canonical digits with no leading zero, and reads back to the same integer |
| Numbers.DigitsRoundTrip | parser.go:63 | the base-ten digits of n read back to n |
| Numbers.PadZero | parser.go:130-133 | `%0Nd` pads with zeros up to the width and never truncates a wider number |
| Numbers.PadZeroFits | parser.go:130-133 | a number below 10^width prints in exactly width characters |
| Numbers.PadZeroValue | parser.go:130-133 | the zero-padded text reads back to the number |
| Quoting.Quote | parser.go:59 | `%q` output starts and ends with a double quote |
| Quoting.QuoteChar | parser.go:59 | each character is written as itself, or as an escape that contains a quote only when it is `\"` |
| Quoting.Unquote | parser.go:150 | no contract of its own: the quotes dropped and the body decoded with the opening quote as the quote; stated by `Quoting.QuoteRoundTrip` and `JsonExamples.QuotedLex` |
| Quoting.QuoteRoundTrip | parser.go:150 | unquoting what `%q` wrote gives the original string back, for every string |
| FloatFormat.FormatG | parser.go:61 | `%g` prints a non-empty text that starts with `-` exactly for a negative payload |
| FloatFormat.SameNumberSameFormat | parser.go:61 | two spellings of the same decimal print identically |
| FloatFormat.PaddingKeepsFormat | parser.go:61 | zeros before the integer digits or after the fraction digits change neither the number nor its printed form |
| FloatFormat.FixedReadsBack | parser.go:61 | in fixed notation `%g` prints an integer part with no leading zero and a fraction with no trailing zero, which read back as the same number |
| Lexer.Next | parser.go:137-145 | the token taken is a non-empty prefix of the input that its rule matches; lexing fails exactly when the first character is in no rule's set; String tokens follow the intended rule (`Lexer.QuotedLength`) |
| Lexer.NextNull | parser.go:138 | text starting `null` gives a Null token `null` |
| Lexer.NextUndefined | parser.go:138 | text starting `undefined` gives a Null token `undefined` |
| Lexer.NextDigit | parser.go:139 | a digit is a one-character Digit token |
| Lexer.NextIdent | parser.go:140 | a letter not starting `null` or `undefined` gives an Ident token up to the first non-word character |
| Lexer.NextString | parser.go:141 | a double quote with a closing quote gives a String token up to the first closing quote not escaped by a backslash, under the intended rule |
| Lexer.NextPunct | parser.go:143 | a punctuation mark that opens no string is a one-character Punct token |
| Lexer.NextSpace | parser.go:144 | whitespace gives one Whitespace token over the whole run |
| Lexer.QuotedLength | parser.go:141 | the String rule (corrected) ends on a closing quote inside the text |
| Lexer.QuotedLengthAsWritten | parser.go:141 | the String rule as written also ends on a quote inside the text |
| Lexer.StringRuleDiscrepancy | parser.go:141 | on `"a\\" "` the rule as written takes all seven characters, which do not unquote; the corrected rule takes the five that `%q` writes for `a\`, which unquote to `a\` |
| Lexer.LexRaw | parser.go:137-145 | no contract of its own: the whole text cut into tokens by `Lexer.Next`; stated by `Lexer.LexRawCovers` |
| Lexer.Cook | parser.go:149-150 | no contract of its own: whitespace elided and String texts unquoted; stated by `Lexer.CookLexed` |
| Lexer.Lex | parser.go:137-150 | no contract of its own: LexRaw then Cook; stated by `Lexer.LexLexed` and `Rendering.LexRender` |
| Lexer.LexRawCovers | parser.go:137-145 | the raw tokens' texts, whitespace included, spell the whole input, and each token matches its rule |
| Lexer.CookLexed | parser.go:149-150 | after whitespace is elided and strings are unquoted, every token left is one the rules can produce |
| Lexer.LexLexed | parser.go:147-150 | every token the lexer hands the grammar is a Null, Digit, Ident, Punct or unquoted String token |
| Parser.DigitCount | parser.go:112-115 | `Digit+` takes the longest run of Digit tokens at the front |
| Parser.ParseUnsigned | parser.go:112-115 | a digit run converted to a field (as one base-ten number, this model's reading) is below the field's bound and consumes tokens |
| Parser.ParseDecimal | parser.go:38 | a decimal read is negative exactly when a `-` token starts it |
| Parser.ParseInteger | parser.go:39 | an integer read is negative only when a `-` token starts it |
| Parser.ParseLiteral | parser.go:34-40 | a literal that reads consumes at least one token |
| Parser.ParseValue | parser.go:14-19 | a value that reads consumes at least one token |
| Parser.ParseObject | parser.go:68-70 | an object that reads consumes at least one token |
| Parser.ParseField | parser.go:85-88 | a field that reads consumes at least one token |
| Parser.ParseArray | parser.go:94-96 | an array that reads consumes at least one token |
| Parser.ParseDate | parser.go:111-116 | a date that reads consumes at least one token |
| Parser.ParseMoreFields | parser.go:69 | `("," Field)*` keeps the fields already read as a prefix, each further field consumes at least two tokens (the comma and more), and it reads nothing exactly when it consumes nothing |
| Parser.ParseMoreValues | parser.go:95 | `("," Value)*` keeps the values already read as a prefix, each further value consumes at least two tokens, and it reads nothing exactly when it consumes nothing |
| Parser.ParseMoreNumbers | parser.go:115 | `("," @(Digit+))*` keeps the numbers already read as a prefix, each further number consumes at least two tokens, and it reads nothing exactly when it consumes nothing; one element per digit run is this model's reading |
| Parser.Parse | parser.go:166-176 | no contract of its own: one value and no tokens after it; stated by `Source.SourceRoundTrip` and `ParseWellFormed.ParseTextWellFormed` |
| Parser.ParseText | parser.go:156-164 | no contract of its own: lex, then parse; stated by `ParseWellFormed.ParseTextWellFormed` and the `JsonExamples` lemmas |
| ParseWellFormed.LiteralWellFormed | parser.go:34-40 | a literal read from lexed tokens has exactly one alternative set; a Null is spelled `null` or `undefined`; a Decimal has digits on both sides of the point |
| ParseWellFormed.DecimalWellFormed | parser.go:38 | a Decimal read has digits before and after the point |
| ParseWellFormed.ValueWellFormed | parser.go:14-19 | a value read from lexed tokens is well formed, and what is left is lexed tokens |
| ParseWellFormed.ObjectWellFormed | parser.go:68-70 | an object read has identifier keys and well-formed values |
| ParseWellFormed.FieldWellFormed | parser.go:85-88 | a field read has an identifier key and a well-formed value |
| ParseWellFormed.ArrayWellFormed | parser.go:94-96 | an array read holds well-formed values |
| ParseWellFormed.ParseTextWellFormed | parser.go:156-176 | every value parsed from text is well formed |
| Rendering.StringEndQuote | parser.go:141 | the corrected String rule ends exactly at the closing quote `%q` wrote, whatever follows |
| Rendering.NextSpelling | parser.go:137-145 | a printable token's spelling followed by a space is lexed as that same token |
| Rendering.LexRender | parser.go:137-150 | lexing the rendering of printable tokens gives exactly those tokens |
| Source.DigitRunRead | parser.go:112-115 | under this model's reading of `@(Digit+)` (the whole run as one number in base ten, see `Parser.ParseMoreNumbers` under "## Left out"), any run of digits, leading zeros included, reads as the number it denotes when that is below the field's bound, and is refused otherwise |
| Source.UnsignedRead | parser.go:112-115 | the digits of a number below the bound read back as that number |
| Source.DecimalRead | parser.go:38 | the tokens of a decimal read back as that decimal |
| Source.IntegerRead | parser.go:39 | the sign and digits of an int64 read back as that int64 |
| Source.IntegerNotDecimal | parser.go:38-39 | an integer's tokens are not read as a Decimal, so the Integer alternative reads them |
| Source.LiteralRead | parser.go:34-40 | the tokens of a well-formed literal read back as that literal |
| Source.NotValue | parser.go:14-19 | no value starts at a closing bracket or brace |
| Source.ValueRead | parser.go:14-19 | the tokens of a well-formed, plain value read back as that value, leaving what followed |
| Source.ObjectRead | parser.go:68-70 | the tokens of an object read back as that object |
| Source.FieldRead | parser.go:85-88 | the tokens of a field read back as that field |
| Source.MoreFieldsRead | parser.go:69 | `("," Field)*` reads every further field, in order |
| Source.ArrayRead | parser.go:94-96 | the tokens of an array read back as that array |
| Source.MoreValuesRead | parser.go:95 | `("," Value)*` reads every further value, in order |
| Source.MoreNumbersRead | parser.go:115 | under this model's reading of `@(Digit+)` (one MoreValues element per digit run), `("," Digit+)*` reads every further number into MoreValues, in order |
| Source.DateRead | parser.go:111-116 | the tokens of a date read back as that date |
| Source.SourceRoundTrip | parser.go:156-176 | the source text of every well-formed, plain value parses back to that value; that text puts a space after every token, so numbers are spelled digit by digit (`1 2 ` for 12) |
| JsonExamples.NullSpellings | json_test.go:14-21 | `null` and `undefined` both parse as Null literals and serialise as `null` |
| JsonExamples.Booleans | json_test.go:23-30 | `true` and `false` parse as Booleans and serialise as themselves |
| JsonExamples.QuotedLex | parser.go:141 | a string quoted with `'` or `"` and holding no quote and no backslash lexes as one String token carrying its unquoted body |
| JsonExamples.QuotedRead | parser.go:37 | such a string, unless it spells `true` or `false`, parses as a String literal with that body, which serialises as the `%q` quoting of the body |
| JsonExamples.SingleQuoted | json_test.go:52-55 | `'abcdefg'` parses as the String `abcdefg` and serialises as `"abcdefg"` |
| JsonExamples.DateSourceRead | parser.go:111-116 | `new Date(y, m, d)` written with any digit runs parses as the date of the numbers they denote in base ten (this model's reading of the conversion) when those fit uint16, uint8 and uint8 |
| JsonExamples.DateLeadingZerosParse | json_test.go:47-50 | `new Date(1970, 01, 01)` parses as the date 1970-01-01 with no further values |
| JsonExamples.DateLeadingZerosJSON | json_test.go:47-50 | that date serialises as `"1970-01-01T00:00:00Z"` |

## Left out

- `ParseString` and `Parse` read the text through a `bytes.Buffer` and an `io.Reader`. `Parser.ParseText` takes the text directly; writing to the buffer cannot fail, so that error path is not modelled.
- participle's `UseLookahead(10)` is not modelled: `Parser.ParseValue` backtracks over any number of tokens. Because the Digit rule (parser.go:139) makes every digit its own token, an integer of 11 or more digits, such as `12345678901` and most large int64 values, sends the Decimal alternative (parser.go:38) more than ten tokens ahead before it fails at the missing `.`; participle then likely reports an error instead of trying the Integer alternative, so the source likely rejects such input. `Parser.ParseLiteral`, `Source.IntegerRead` and `Source.SourceRoundTrip` accept it.
- participle's error values and messages are not modelled. `Parser.ParseError` records only the kind of failure and where it happened.
- participle's conversion of captures into fields is not part of this model. `Parser.ParseUnsigned` and `Parser.ParseInteger` stand in for `strconv.ParseUint`/`ParseInt` in base ten with the field's bit size, refusing a value out of range.
- Parser.ParseMoreNumbers: this model reads each `@(Digit+)` run into one MoreValues element, in base ten (`Parser.ParseUnsigned`). Both are assumptions about participle's runtime, which is not part of this model. The Digit rule (parser.go:139) is a single `\d`, so a run is one token per digit. For a slice field such as `MoreValues []uint64` (parser.go:115), participle may append each captured token as its own element and join tokens only for scalar fields; `,28` would then add 2 and 8. participle may also convert in base 0, where `010` is 8 and `08` and `09` are refused; `new Date(2021, 08, 09)` would then fail, while the model reads it as 2021-08-09. `Source.DigitRunRead`, `Source.MoreNumbersRead`, `Source.DateRead`, `JsonExamples.DateSourceRead` and the `T00:00:00Z` of the first finding hold under this reading. `JsonExamples.DateLeadingZerosParse` holds under either base, since `01` is 1 in both.
- FloatFormat.FormatG: the payload is the exact decimal read, not a `float64`. Rounding to 53 bits, overflow to infinity and more than 15 significant digits are not modelled; for decimals within those limits `%g` prints the same text.
- Quoting.QuoteChar: characters at or above U+0080 are taken to be printable and written as themselves. Go's Unicode printability tables are not modelled.
- Serializer.ValueJSON prints a date as the code does (`Serializer.DateJSON`, MoreValues[3] to [5]); the corrected `Serializer.DateJSONIntended` sits beside it and is not used by `ValueJSON`. The serialiser's output is modelled as written.
- Source.SourceRoundTrip requires `Source.Plain`: the grammar reads a String spelled `true` or `false` as a Boolean, and lexes a key beginning with `null` or `undefined` as a Null token. Such values do not read back and are excluded.
- Parser.ParseValue: its own contract only says that a successful read consumes tokens; what it reads is stated by the `Source` and `ParseWellFormed` lemmas.
- Parser.ParseObject: its own contract only says that a successful read consumes tokens; what it reads is stated by the `Source` and `ParseWellFormed` lemmas.
- Parser.ParseArray: its own contract only says that a successful read consumes tokens; what it reads is stated by the `Source` and `ParseWellFormed` lemmas.
- Parser.ParseField: its own contract only says that a successful read consumes tokens; what it reads is stated by the `Source` and `ParseWellFormed` lemmas.
- Parser.ParseLiteral: its own contract only says that a successful read consumes tokens; what it reads is stated by the `Source` and `ParseWellFormed` lemmas.
- Parser.ParseDate: its own contract only says that a successful read consumes tokens; what it reads is stated by the `Source` and `ParseWellFormed` lemmas.
- Lexer.Next: String tokens are read by `Lexer.QuotedLength` (a backslash escapes any character), not by `Lexer.QuotedLengthAsWritten`, the rule as parser.go:141 writes it. So the model lexes and parses `["a\\", "b"]`, which the rule as written runs on to `"a\\", "` and then fails to unquote. `Lexer.NextString`, `Lexer.LexRawCovers`, `Rendering.StringEndQuote`, `Rendering.LexRender` and `Source.SourceRoundTrip` are stated about this corrected lexer.
- The single-quoted twin of the String rule is modelled by `Lexer.Next` and `Quoting.Unquote`, but the round trip only ever writes double-quoted strings.
- `JBoolean.Capture` always returns a nil error in Go; `Serializer.JBoolean.Capture` has no error result.
- Concrete parse-then-serialise lemmas are stated only for the `null`, `undefined`, `true`, `false`, `'abcdefg'` and `new Date(1970, 01, 01)` cases of json_test.go. Its other cases have none: the integers and decimals (json_test.go:31-46), the double-quoted string (json_test.go:56-59), the objects (json_test.go:61-72), the arrays (json_test.go:74-86) and the string with an escaped quote (json_test.go:88-91). Their general shape is covered by `Source.SourceRoundTrip` and the `Serializer` lemmas, but no lemma fixes their literal text and output.

## Findings

| source | as written | input that shows it | evidently intended | confidence | as-written member | corrected member |
|---|---|---|---|---|---|---|
| parser.go:118-134 | hour, minute and second are read from MoreValues[3], [4] and [5], but MoreValues already starts after the day, so on any reading of the capture the time skips the first three values after the day | `new Date(2021,7,27,0,28,45,0)` (real_cases_test.go:10) prints `T00:00:00Z` when each digit run is one MoreValues element, as this model reads it (see `Parser.ParseMoreNumbers` under "## Left out") | MoreValues[0], [1] and [2], printing `T00:28:45Z` | medium; not executed | Serializer.DateTimeDiscrepancy | Serializer.DateJSONIntendedTime |
| parser.go:141 | in the String rule a backslash escapes only a following quote, and when the text runs out the match falls back to the last `\"` pair | `"a\\" "`: the token runs over all seven characters and fails to unquote, so `["a\\", "b"]` does not lex | a backslash escapes whatever character follows, so `"a\\"` closes after the escaped backslash | medium; not executed | Lexer.StringRuleDiscrepancy | Lexer.QuotedLength |
