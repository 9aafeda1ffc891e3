/** The grammar of the struct tags, read as ordered choice over the token stream: each
    alternative tried in the order the tags list them, the first that succeeds taken.
    A quoted literal of the grammar ("true", "{", ",", "new" ...) matches any token with
    that value, whatever its kind; Null, Digit, Ident and String match tokens of that
    kind. */
module Parser {
  import opened Wrappers
  import opened Numbers
  import opened Chars
  import opened FloatFormat
  import opened Ast
  import opened Lexer
  import opened Serializer

  datatype ParseError =
    | Unexpected(at: seq<Token>)
    | OutOfRange(text: string)
    | Trailing(rest: seq<Token>)
    | LexFailed(cause: LexError)

  /** What is left after a rule read a T from the front of the tokens. */
  type Parsed<T> = Result<(T, seq<Token>), ParseError>

  const MaxInt64: int := 0x8000_0000_0000_0000

  /** The first token carries the grammar literal lit. */
  predicate IsLit(ts: seq<Token>, lit: string) {
    |ts| > 0 && ts[0].value == lit
  }

  /** The first token is of kind k. */
  predicate IsKind(ts: seq<Token>, k: Kind) {
    |ts| > 0 && ts[0].kind == k
  }

  /** How many Digit tokens Digit+ takes from the front. */
  function DigitCount(ts: seq<Token>): (n: nat)
    ensures n <= |ts|
    ensures forall k :: 0 <= k < n ==> ts[k].kind == Digit
    ensures n == |ts| || ts[n].kind != Digit
  {
    if |ts| > 0 && ts[0].kind == Digit then 1 + DigitCount(ts[1..]) else 0
  }

  /** The text a capture @(...) collects: the tokens' values one after the other. */
  function Values(ts: seq<Token>): string {
    if ts == [] then "" else ts[0].value + Values(ts[1..])
  }

  /** @(Digit+) into an unsigned field below bound: the run of Digit tokens read as one
      number in base ten, which is this model's reading of participle's conversion. */
  function ParseUnsigned(ts: seq<Token>, bound: nat): (r: Parsed<nat>)
    ensures r.Ok? ==> r.value.0 < bound && |r.value.1| < |ts|
  {
    var n := DigitCount(ts);
    var text := Values(ts[..n]);
    if n == 0 then Err(Unexpected(ts))
    else if !AllDigits(text) then Err(OutOfRange(text))
    else if ValueOf(text) >= bound then Err(OutOfRange(text))
    else Ok((ValueOf(text), ts[n..]))
  }

  /** "-"? at the front: whether it is there, and what follows. */
  function Sign(ts: seq<Token>): (r: (bool, seq<Token>))
    ensures r.1 == if IsLit(ts, "-") then ts[1..] else ts
  {
    if IsLit(ts, "-") then (true, ts[1..]) else (false, ts)
  }

  /** @( "-"? Digit+ "." Digit+ ) into a Decimal. */
  function ParseDecimal(ts: seq<Token>): (r: Parsed<Float64>)
    ensures r.Ok? ==> |r.value.1| < |ts|
    ensures r.Ok? ==> r.value.0.negative == IsLit(ts, "-")
  {
    var (negative, ts1) := Sign(ts);
    var n1 := DigitCount(ts1);
    var ts2 := ts1[n1..];
    if n1 == 0 || !IsLit(ts2, ".") then Err(Unexpected(ts))
    else
      var ts3 := ts2[1..];
      var n2 := DigitCount(ts3);
      var whole, frac := Values(ts1[..n1]), Values(ts3[..n2]);
      if n2 == 0 then Err(Unexpected(ts))
      else if !AllDigits(whole) || !AllDigits(frac) then Err(OutOfRange(whole + "." + frac))
      else Ok((Float64(negative, whole, frac), ts3[n2..]))
  }

  /** @( "-"? Digit+ ) into an int64: the digits read in base ten, negated after a "-",
      refused outside the int64 range. */
  function ParseInteger(ts: seq<Token>): (r: Parsed<int64>)
    ensures r.Ok? ==> |r.value.1| < |ts|
    ensures r.Ok? ==> (r.value.0 < 0 ==> IsLit(ts, "-"))
  {
    var (negative, ts1) := Sign(ts);
    var n := DigitCount(ts1);
    var text := Values(ts1[..n]);
    if n == 0 then Err(Unexpected(ts))
    else if !AllDigits(text) then Err(OutOfRange(text))
    else
      var v := if negative then -(ValueOf(text) as int) else ValueOf(text);
      if v < -MaxInt64 || v >= MaxInt64 then Err(OutOfRange(text))
      else Ok((v as int64, ts1[n..]))
  }

  /** JLiteral: @Null | @("true" | "false") | @String | Decimal | Integer. */
  function ParseLiteral(ts: seq<Token>): (r: Parsed<JLiteral>)
    ensures r.Ok? ==> |r.value.1| < |ts|
  {
    if IsKind(ts, Null) then Ok((JLiteral(ts[0].value, None, None, None, None), ts[1..]))
    else if IsLit(ts, "true") || IsLit(ts, "false") then
      Ok((JLiteral("", Some(CapturedBool([ts[0].value])), None, None, None), ts[1..]))
    else if IsKind(ts, String) then Ok((JLiteral("", None, Some(ts[0].value), None, None), ts[1..]))
    else match ParseDecimal(ts)
      case Ok((f, rest)) => Ok((JLiteral("", None, None, Some(f), None), rest))
      case Err(_) =>
        match ParseInteger(ts)
        case Ok((n, rest)) => Ok((JLiteral("", None, None, None, Some(n)), rest))
        case Err(e) => Err(e)
  }

  /** JValue: Literal | Object | Array | Date, the first that reads. */
  function ParseValue(ts: seq<Token>): (r: Parsed<JValue>)
    ensures r.Ok? ==> |r.value.1| < |ts|
    decreases |ts|, 1
  {
    match ParseLiteral(ts)
    case Ok((l, rest)) => Ok((LiteralValue(l), rest))
    case Err(_) =>
      match ParseObject(ts)
      case Ok((o, rest)) => Ok((JValue(None, Some(o), None, None), rest))
      case Err(_) =>
        match ParseArray(ts)
        case Ok((a, rest)) => Ok((JValue(None, None, Some(a), None), rest))
        case Err(_) =>
          match ParseDate(ts)
          case Ok((d, rest)) => Ok((DateValue(d), rest))
          case Err(e) => Err(e)
  }

  /** JObject: "{" (Field ("," Field)*)? "}". */
  function ParseObject(ts: seq<Token>): (r: Parsed<JObject>)
    ensures r.Ok? ==> |r.value.1| < |ts|
    decreases |ts|, 0
  {
    if !IsLit(ts, "{") then Err(Unexpected(ts))
    else
      var body := ts[1..];
      match ParseField(body)
      case Ok((f, rest)) =>
        var (fs, rest2) := ParseMoreFields(rest, [f]);
        if IsLit(rest2, "}") then Ok((JObject(fs), rest2[1..])) else Err(Unexpected(rest2))
      case Err(_) =>
        if IsLit(body, "}") then Ok((JObject([]), body[1..])) else Err(Unexpected(body))
  }

  /** ("," Field)*: as many as read, stopping before a "," that no field follows. */
  function ParseMoreFields(ts: seq<Token>, acc: seq<JField>): (r: (seq<JField>, seq<Token>))
    ensures |r.1| <= |ts|
    ensures |acc| <= |r.0| && r.0[..|acc|] == acc
    ensures 2 * (|r.0| - |acc|) <= |ts| - |r.1|
    ensures r.0 == acc <==> r.1 == ts
    decreases |ts|, 2
  {
    if !IsLit(ts, ",") then (acc, ts)
    else
      match ParseField(ts[1..])
      case Ok((f, rest)) => ParseMoreFields(rest, acc + [f])
      case Err(_) => (acc, ts)
  }

  /** JField: @Ident ":" Value. */
  function ParseField(ts: seq<Token>): (r: Parsed<JField>)
    ensures r.Ok? ==> |r.value.1| < |ts|
    decreases |ts|, 0
  {
    if !IsKind(ts, Ident) || !IsLit(ts[1..], ":") then Err(Unexpected(ts))
    else
      match ParseValue(ts[2..])
      case Ok((v, rest)) => Ok((JField(ts[0].value, v), rest))
      case Err(e) => Err(e)
  }

  /** JArray: "[" (Value ("," Value)*)? "]". */
  function ParseArray(ts: seq<Token>): (r: Parsed<JArray>)
    ensures r.Ok? ==> |r.value.1| < |ts|
    decreases |ts|, 0
  {
    if !IsLit(ts, "[") then Err(Unexpected(ts))
    else
      var body := ts[1..];
      match ParseValue(body)
      case Ok((v, rest)) =>
        var (vs, rest2) := ParseMoreValues(rest, [v]);
        if IsLit(rest2, "]") then Ok((JArray(vs), rest2[1..])) else Err(Unexpected(rest2))
      case Err(_) =>
        if IsLit(body, "]") then Ok((JArray([]), body[1..])) else Err(Unexpected(body))
  }

  /** ("," Value)*: as many as read, stopping before a "," that no value follows. */
  function ParseMoreValues(ts: seq<Token>, acc: seq<JValue>): (r: (seq<JValue>, seq<Token>))
    ensures |r.1| <= |ts|
    ensures |acc| <= |r.0| && r.0[..|acc|] == acc
    ensures 2 * (|r.0| - |acc|) <= |ts| - |r.1|
    ensures r.0 == acc <==> r.1 == ts
    decreases |ts|, 2
  {
    if !IsLit(ts, ",") then (acc, ts)
    else
      match ParseValue(ts[1..])
      case Ok((v, rest)) => ParseMoreValues(rest, acc + [v])
      case Err(_) => (acc, ts)
  }

  /** ( "," @(Digit+) )* into MoreValues, one element per digit run (this model's reading
      of how participle fills a slice from a multi-token capture). */
  function ParseMoreNumbers(ts: seq<Token>, acc: seq<uint64>): (r: (seq<uint64>, seq<Token>))
    ensures |r.1| <= |ts|
    ensures |acc| <= |r.0| && r.0[..|acc|] == acc
    ensures 2 * (|r.0| - |acc|) <= |ts| - |r.1|
    ensures r.0 == acc <==> r.1 == ts
    decreases |ts|
  {
    if !IsLit(ts, ",") then (acc, ts)
    else
      match ParseUnsigned(ts[1..], 0x1_0000_0000_0000_0000)
      case Ok((n, rest)) => ParseMoreNumbers(rest, acc + [n as uint64])
      case Err(_) => (acc, ts)
  }

  /** JDate: "new" "Date" "(" @(Digit+) "," @(Digit+) "," @(Digit+) ( "," @(Digit+) )* ")",
      into a uint16, two uint8 and uint64s. */
  function ParseDate(ts: seq<Token>): (r: Parsed<JDate>)
    ensures r.Ok? ==> |r.value.1| < |ts|
  {
    if !IsLit(ts, "new") || !IsLit(ts[1..], "Date") || !IsLit(ts[2..], "(") then Err(Unexpected(ts))
    else
      var (year, ts1) :- ParseUnsigned(ts[3..], 0x1_0000);
      if !IsLit(ts1, ",") then Err(Unexpected(ts1))
      else
        var (month, ts2) :- ParseUnsigned(ts1[1..], 0x100);
        if !IsLit(ts2, ",") then Err(Unexpected(ts2))
        else
          var (day, ts3) :- ParseUnsigned(ts2[1..], 0x100);
          var (more, ts4) := ParseMoreNumbers(ts3, []);
          if !IsLit(ts4, ")") then Err(Unexpected(ts4))
          else Ok((JDate(year as uint16, month as uint8, day as uint8, more), ts4[1..]))
  }

  /** The parser's Parse on a token stream: one value and nothing after it. */
  function Parse(ts: seq<Token>): Result<JValue, ParseError> {
    var (v, rest) :- ParseValue(ts);
    if rest != [] then Err(Trailing(rest)) else Ok(v)
  }

  /** ParseString: lex, then parse. */
  function ParseText(s: string): Result<JValue, ParseError> {
    match Lex(s)
    case Err(e) => Err(LexFailed(e))
    case Ok(ts) => Parse(ts)
  }
}
