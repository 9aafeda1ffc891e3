/** Values written back as semi-JSON source: the token stream the grammar reads each value
    from, and the theorem that lexing and parsing that text gives the value back. */
module Source {
  import opened Wrappers
  import opened Numbers
  import opened Chars
  import opened FloatFormat
  import opened Ast
  import opened Lexer
  import opened Parser
  import opened Serializer
  import opened Rendering

  const Comma := Token(Punct, ",")
  const Colon := Token(Punct, ":")
  const Dot := Token(Punct, ".")
  const Minus := Token(Punct, "-")

  /** One Digit token per digit of s, then rest. */
  function DigitsOnto(s: string, rest: seq<Token>): seq<Token> {
    if s == [] then rest else [Token(Digit, [s[0]])] + DigitsOnto(s[1..], rest)
  }

  /** n in base ten, then rest. */
  function NumberOnto(n: nat, rest: seq<Token>): seq<Token> {
    DigitsOnto(Digits(n), rest)
  }

  function SignOnto(negative: bool, rest: seq<Token>): seq<Token> {
    if negative then [Minus] + rest else rest
  }

  /** The tokens of a literal, then rest: its first alternative set, in JLiteral.JSON's
      order. */
  function LiteralOnto(l: JLiteral, rest: seq<Token>): seq<Token> {
    if l.Null != "" then [Token(Null, l.Null)] + rest
    else if l.Boolean.Some? then [Token(Ident, BoolJSON(l.Boolean.value))] + rest
    else if l.String.Some? then [Token(String, l.String.value)] + rest
    else if l.Decimal.Some? then
      var f := l.Decimal.value;
      SignOnto(f.negative, DigitsOnto(f.whole, [Dot] + DigitsOnto(f.frac, rest)))
    else if l.Integer.Some? then
      var n := l.Integer.value as int;
      SignOnto(n < 0, NumberOnto(if n < 0 then -n else n, rest))
    else rest
  }

  /** The tokens of a value, then rest: its first alternative set, in JValue.JSON's order;
      object keys bare, as the Ident rule reads them. */
  function TokensOnto(v: JValue, rest: seq<Token>): seq<Token>
    decreases v, 1
  {
    if v.Literal.Some? then LiteralOnto(v.Literal.value, rest)
    else if v.Object.Some? then
      [Token(Punct, "{")] + FieldsOnto(v.Object.value.Fields, [Token(Punct, "}")] + rest)
    else if v.Array.Some? then
      [Token(Punct, "[")] + ValuesOnto(v.Array.value.Values, [Token(Punct, "]")] + rest)
    else if v.Date.Some? then DateOnto(v.Date.value, rest)
    else rest
  }

  /** Field ("," Field)*, or nothing for no fields. */
  function FieldsOnto(fs: seq<JField>, rest: seq<Token>): seq<Token>
    decreases fs, 2
  {
    if fs == [] then rest else FieldOnto(fs[0], MoreFieldsOnto(fs[1..], rest))
  }

  function MoreFieldsOnto(fs: seq<JField>, rest: seq<Token>): seq<Token>
    decreases fs, 1
  {
    if fs == [] then rest else [Comma] + FieldOnto(fs[0], MoreFieldsOnto(fs[1..], rest))
  }

  function FieldOnto(f: JField, rest: seq<Token>): seq<Token>
    decreases f, 0
  {
    [Token(Ident, f.Key), Colon] + TokensOnto(f.Value, rest)
  }

  /** Value ("," Value)*, or nothing for no values. */
  function ValuesOnto(vs: seq<JValue>, rest: seq<Token>): seq<Token>
    decreases vs, 2
  {
    if vs == [] then rest else TokensOnto(vs[0], MoreValuesOnto(vs[1..], rest))
  }

  function MoreValuesOnto(vs: seq<JValue>, rest: seq<Token>): seq<Token>
    decreases vs, 1
  {
    if vs == [] then rest else [Comma] + TokensOnto(vs[0], MoreValuesOnto(vs[1..], rest))
  }

  /** new Date(Year, Month, Day, MoreValues...) */
  function DateOnto(d: JDate, rest: seq<Token>): seq<Token> {
    [Token(Ident, "new"), Token(Ident, "Date"), Token(Punct, "(")] +
    NumberOnto(d.Year as nat, [Comma] + NumberOnto(d.Month as nat, [Comma] +
      NumberOnto(d.Day as nat, MoreNumbersOnto(d.MoreValues, [Token(Punct, ")")] + rest))))
  }

  function MoreNumbersOnto(ns: seq<uint64>, rest: seq<Token>): seq<Token> {
    if ns == [] then rest else [Comma] + NumberOnto(ns[0] as nat, MoreNumbersOnto(ns[1..], rest))
  }

  /** The token stream of a value. */
  function Tokens(v: JValue): seq<Token> {
    TokensOnto(v, [])
  }

  /** The value as semi-JSON source text: every token followed by a space, so a number is
      spelled digit by digit (`1 2 ` for 12), which lexes back because whitespace is elided. */
  function SourceText(v: JValue): string {
    RenderTokens(Tokens(v))
  }

  /** A value whose source text reads back as itself: no string literal spelled "true"
      or "false" (the grammar would take it for a Boolean), and no key starting with
      "null" or "undefined" (the Null rule would claim that prefix). */
  predicate Plain(v: JValue)
    decreases v
  {
    (v.Literal.Some? && v.Literal.value.String.Some? ==>
      v.Literal.value.String.value != "true" && v.Literal.value.String.value != "false") &&
    (v.Object.Some? ==> PlainFields(v.Object.value.Fields)) &&
    (v.Array.Some? ==> PlainValues(v.Array.value.Values))
  }

  predicate PlainFields(fs: seq<JField>)
    decreases fs
  {
    fs == [] ||
    (!StartsWith(fs[0].Key, "null") && !StartsWith(fs[0].Key, "undefined") &&
     Plain(fs[0].Value) && PlainFields(fs[1..]))
  }

  predicate PlainValues(vs: seq<JValue>)
    decreases vs
  {
    vs == [] || (Plain(vs[0]) && PlainValues(vs[1..]))
  }

  /** What may follow a value inside the grammar: nothing, or a "," "]" or "}". */
  predicate Ends(rest: seq<Token>) {
    rest == [] ||
    (rest[0].kind == Punct && (rest[0].value == "," || rest[0].value == "]" || rest[0].value == "}"))
  }

  // Reading the digit runs back

  lemma {:induction false} DigitsRead(s: string, rest: seq<Token>)
    requires AllDigits(s)
    requires rest == [] || rest[0].kind != Digit
    ensures var ts := DigitsOnto(s, rest);
      DigitCount(ts) == |s| && Values(ts[..|s|]) == s && ts[|s|..] == rest
  {
    var ts := DigitsOnto(s, rest);
    if s == [] {
      assert ts[..0] == [];
    } else {
      var tail := DigitsOnto(s[1..], rest);
      DigitsRead(s[1..], rest);
      assert ts[1..] == tail;
      assert ts[..|s|][1..] == tail[..|s| - 1];
      assert ts[|s|..] == tail[|s| - 1..];
      assert [s[0]] + s[1..] == s;
    }
  }

  /** Digit+ reads any run of digits, leading zeros included, as the number it denotes
      when that number is below the field's bound, and refuses it otherwise. */
  lemma {:induction false} DigitRunRead(s: string, bound: nat, rest: seq<Token>)
    requires AllDigits(s) && s != []
    requires rest == [] || rest[0].kind != Digit
    ensures ValueOf(s) < bound ==> ParseUnsigned(DigitsOnto(s, rest), bound) == Ok((ValueOf(s), rest))
    ensures ValueOf(s) >= bound ==> ParseUnsigned(DigitsOnto(s, rest), bound).Err?
  {
    DigitsRead(s, rest);
  }

  /** Digit+ read into a field below bound gives the number back. */
  lemma UnsignedRead(n: nat, bound: nat, rest: seq<Token>)
    requires n < bound
    requires rest == [] || rest[0].kind != Digit
    ensures ParseUnsigned(NumberOnto(n, rest), bound) == Ok((n, rest))
  {
    DigitsRead(Digits(n), rest);
    DigitsRoundTrip(n);
  }

  lemma {:induction false} DecimalRead(f: Float64, rest: seq<Token>)
    requires f.whole != [] && f.frac != []
    requires Ends(rest)
    ensures ParseDecimal(SignOnto(f.negative, DigitsOnto(f.whole, [Dot] + DigitsOnto(f.frac, rest)))) ==
      Ok((f, rest))
  {
    var tail := [Dot] + DigitsOnto(f.frac, rest);
    var ts1 := DigitsOnto(f.whole, tail);
    var ts := SignOnto(f.negative, ts1);
    DigitsRead(f.whole, tail);
    DigitsRead(f.frac, rest);
    assert Sign(ts).1 == ts1;
    assert tail[1..] == DigitsOnto(f.frac, rest);
  }

  /** An integer's tokens are not a decimal: no "." follows the digits. */
  lemma IntegerNotDecimal(a: nat, negative: bool, rest: seq<Token>)
    requires Ends(rest)
    ensures ParseDecimal(SignOnto(negative, NumberOnto(a, rest))).Err?
  {
    var ts1 := NumberOnto(a, rest);
    DigitsRead(Digits(a), rest);
    assert Sign(SignOnto(negative, ts1)).1 == ts1;
  }

  lemma IntegerRead(n: int64, rest: seq<Token>)
    requires Ends(rest)
    ensures var m := n as int;
      ParseInteger(SignOnto(m < 0, NumberOnto(if m < 0 then -m else m, rest))) == Ok((n, rest))
  {
    var m := n as int;
    var a := if m < 0 then -m else m;
    IntegerDigitsRead(m < 0, a, rest);
  }

  /** The sign and the digits of an int64's magnitude a read back as that int64. */
  lemma IntegerDigitsRead(negative: bool, a: nat, rest: seq<Token>)
    requires Ends(rest)
    requires if negative then 0 < a <= MaxInt64 else a < MaxInt64
    ensures ParseInteger(SignOnto(negative, NumberOnto(a, rest))) ==
      Ok(((if negative then -(a as int) else a as int) as int64, rest))
  {
    var ts1 := NumberOnto(a, rest);
    DigitsRead(Digits(a), rest);
    DigitsRoundTrip(a);
    assert Sign(SignOnto(negative, ts1)) == (negative, ts1);
  }

  /** A literal is not read where a "{", "[", "new", "]" or "}" token stands. */
  lemma NotLiteral(ts: seq<Token>)
    requires |ts| > 0 && (ts[0].kind == Punct || ts[0].kind == Ident)
    requires ts[0].value == "{" || ts[0].value == "[" || ts[0].value == "new" ||
      ts[0].value == "]" || ts[0].value == "}"
    ensures ParseLiteral(ts).Err?
  {
    assert Sign(ts).1 == ts;
  }

  /** No value starts at a closing bracket. */
  lemma {:induction false} NotValue(ts: seq<Token>)
    requires |ts| > 0 && ts[0].kind == Punct && (ts[0].value == "]" || ts[0].value == "}")
    ensures ParseValue(ts).Err?
  {
    NotLiteral(ts);
    assert ParseObject(ts).Err? && ParseArray(ts).Err? && ParseDate(ts).Err?;
  }

  lemma LiteralByDecimal(ts: seq<Token>, f: Float64, rest: seq<Token>)
    requires |ts| > 0 && ts[0].kind != Null && ts[0].kind != String
    requires ts[0].value != "true" && ts[0].value != "false"
    requires ParseDecimal(ts) == Ok((f, rest))
    ensures ParseLiteral(ts) == Ok((JLiteral("", None, None, Some(f), None), rest))
  {
  }

  lemma LiteralByInteger(ts: seq<Token>, n: int64, rest: seq<Token>)
    requires |ts| > 0 && ts[0].kind != Null && ts[0].kind != String
    requires ts[0].value != "true" && ts[0].value != "false"
    requires ParseDecimal(ts).Err? && ParseInteger(ts) == Ok((n, rest))
    ensures ParseLiteral(ts) == Ok((JLiteral("", None, None, None, Some(n)), rest))
  {
  }

  lemma LiteralRead(l: JLiteral, rest: seq<Token>)
    requires WellFormedLiteral(l)
    requires l.String.Some? ==> l.String.value != "true" && l.String.value != "false"
    requires Ends(rest)
    ensures ParseLiteral(LiteralOnto(l, rest)) == Ok((l, rest))
  {
    var ts := LiteralOnto(l, rest);
    if l.Null != "" {
    } else if l.Boolean.Some? {
    } else if l.String.Some? {
    } else if l.Decimal.Some? {
      var f := l.Decimal.value;
      DecimalRead(f, rest);
      assert ts[0].kind != Null && ts[0].kind != String && ts[0].value != "true" && ts[0].value != "false";
      LiteralByDecimal(ts, f, rest);
    } else {
      var n := l.Integer.value;
      var m := n as int;
      IntegerNotDecimal(if m < 0 then -m else m, m < 0, rest);
      IntegerRead(n, rest);
      assert ts[0].kind != Null && ts[0].kind != String && ts[0].value != "true" && ts[0].value != "false";
      LiteralByInteger(ts, n, rest);
    }
  }

  // Which alternative of JValue reads

  lemma {:induction false} ValueByLiteral(ts: seq<Token>, l: JLiteral, rest: seq<Token>)
    requires ParseLiteral(ts) == Ok((l, rest))
    ensures ParseValue(ts) == Ok((LiteralValue(l), rest))
  {
  }

  lemma {:induction false} ValueByObject(ts: seq<Token>, o: JObject, rest: seq<Token>)
    requires ParseLiteral(ts).Err? && ParseObject(ts) == Ok((o, rest))
    ensures ParseValue(ts) == Ok((JValue(None, Some(o), None, None), rest))
  {
  }

  lemma {:induction false} ValueByArray(ts: seq<Token>, a: JArray, rest: seq<Token>)
    requires ParseLiteral(ts).Err? && ParseObject(ts).Err? && ParseArray(ts) == Ok((a, rest))
    ensures ParseValue(ts) == Ok((JValue(None, None, Some(a), None), rest))
  {
  }

  lemma {:induction false} ValueByDate(ts: seq<Token>, d: JDate, rest: seq<Token>)
    requires ParseLiteral(ts).Err? && ParseObject(ts).Err? && ParseArray(ts).Err?
    requires ParseDate(ts) == Ok((d, rest))
    ensures ParseValue(ts) == Ok((DateValue(d), rest))
  {
  }

  // Reading a value's tokens back

  /** The grammar reads a well-formed, plain value back from its tokens, leaving exactly
      what followed them. */
  lemma {:induction false} ValueRead(v: JValue, rest: seq<Token>)
    requires WellFormed(v) && Plain(v) && Ends(rest)
    ensures ParseValue(TokensOnto(v, rest)) == Ok((v, rest))
    decreases v, 3
  {
    var ts := TokensOnto(v, rest);
    if v.Literal.Some? {
      LiteralRead(v.Literal.value, rest);
      ValueByLiteral(ts, v.Literal.value, rest);
    } else if v.Object.Some? {
      var o := v.Object.value;
      NotLiteral(ts);
      ObjectRead(o.Fields, rest);
      ValueByObject(ts, o, rest);
    } else if v.Array.Some? {
      var a := v.Array.value;
      NotLiteral(ts);
      ArrayRead(a.Values, rest);
      ValueByArray(ts, a, rest);
    } else {
      var d := v.Date.value;
      NotLiteral(ts);
      DateRead(d, rest);
      ValueByDate(ts, d, rest);
    }
  }

  lemma {:induction false} ObjectRead(fs: seq<JField>, rest: seq<Token>)
    requires WellFormedFields(fs) && PlainFields(fs) && Ends(rest)
    ensures ParseObject([Token(Punct, "{")] + FieldsOnto(fs, [Token(Punct, "}")] + rest)) ==
      Ok((JObject(fs), rest))
    decreases fs, 2
  {
    var close := [Token(Punct, "}")] + rest;
    var body := FieldsOnto(fs, close);
    assert ([Token(Punct, "{")] + body)[1..] == body;
    if fs != [] {
      var more := MoreFieldsOnto(fs[1..], close);
      FieldRead(fs[0], more);
      MoreFieldsRead(fs[1..], [fs[0]], close);
      assert [fs[0]] + fs[1..] == fs;
    }
  }

  lemma {:induction false} FieldRead(f: JField, rest: seq<Token>)
    requires WellFormed(f.Value) && Plain(f.Value) && Ends(rest)
    ensures ParseField(FieldOnto(f, rest)) == Ok((f, rest))
    decreases f, 0
  {
    var ts := FieldOnto(f, rest);
    assert ts[2..] == TokensOnto(f.Value, rest);
    ValueRead(f.Value, rest);
  }

  lemma {:induction false} MoreFieldsStep(ts: seq<Token>, acc: seq<JField>, f: JField, rest: seq<Token>)
    requires IsLit(ts, ",") && ParseField(ts[1..]) == Ok((f, rest))
    ensures ParseMoreFields(ts, acc) == ParseMoreFields(rest, acc + [f])
  {
  }

  lemma {:induction false} MoreFieldsRead(fs: seq<JField>, acc: seq<JField>, close: seq<Token>)
    requires WellFormedFields(fs) && PlainFields(fs)
    requires |close| > 0 && close[0] == Token(Punct, "}")
    ensures ParseMoreFields(MoreFieldsOnto(fs, close), acc) == (acc + fs, close)
    decreases fs, 1
  {
    if fs == [] {
      assert acc + fs == acc;
    } else {
      var more := MoreFieldsOnto(fs[1..], close);
      var ts := MoreFieldsOnto(fs, close);
      calc {
        ParseMoreFields(ts, acc);
        { assert ts[1..] == FieldOnto(fs[0], more);
          FieldRead(fs[0], more);
          MoreFieldsStep(ts, acc, fs[0], more); }
        ParseMoreFields(more, acc + [fs[0]]);
        { MoreFieldsRead(fs[1..], acc + [fs[0]], close); }
        (acc + [fs[0]] + fs[1..], close);
        { assert acc + [fs[0]] + fs[1..] == acc + fs; }
        (acc + fs, close);
      }
    }
  }

  lemma {:induction false} ArrayRead(vs: seq<JValue>, rest: seq<Token>)
    requires WellFormedValues(vs) && PlainValues(vs) && Ends(rest)
    ensures ParseArray([Token(Punct, "[")] + ValuesOnto(vs, [Token(Punct, "]")] + rest)) ==
      Ok((JArray(vs), rest))
    decreases vs, 2
  {
    var close := [Token(Punct, "]")] + rest;
    var body := ValuesOnto(vs, close);
    assert ([Token(Punct, "[")] + body)[1..] == body;
    if vs == [] {
      NotValue(close);
    } else {
      var more := MoreValuesOnto(vs[1..], close);
      ValueRead(vs[0], more);
      MoreValuesRead(vs[1..], [vs[0]], close);
      assert [vs[0]] + vs[1..] == vs;
    }
  }

  lemma {:induction false} MoreValuesStep(ts: seq<Token>, acc: seq<JValue>, v: JValue, rest: seq<Token>)
    requires IsLit(ts, ",") && ParseValue(ts[1..]) == Ok((v, rest))
    ensures ParseMoreValues(ts, acc) == ParseMoreValues(rest, acc + [v])
  {
  }

  lemma {:induction false} MoreValuesRead(vs: seq<JValue>, acc: seq<JValue>, close: seq<Token>)
    requires WellFormedValues(vs) && PlainValues(vs)
    requires |close| > 0 && close[0] == Token(Punct, "]")
    ensures ParseMoreValues(MoreValuesOnto(vs, close), acc) == (acc + vs, close)
    decreases vs, 1
  {
    if vs == [] {
      assert acc + vs == acc;
    } else {
      var more := MoreValuesOnto(vs[1..], close);
      var ts := MoreValuesOnto(vs, close);
      calc {
        ParseMoreValues(ts, acc);
        { assert ts[1..] == TokensOnto(vs[0], more);
          ValueRead(vs[0], more);
          MoreValuesStep(ts, acc, vs[0], more); }
        ParseMoreValues(more, acc + [vs[0]]);
        { MoreValuesRead(vs[1..], acc + [vs[0]], close); }
        (acc + [vs[0]] + vs[1..], close);
        { assert acc + [vs[0]] + vs[1..] == acc + vs; }
        (acc + vs, close);
      }
    }
  }

  lemma {:induction false} MoreNumbersStep(ts: seq<Token>, acc: seq<uint64>, n: nat, rest: seq<Token>)
    requires IsLit(ts, ",") && ParseUnsigned(ts[1..], 0x1_0000_0000_0000_0000) == Ok((n, rest))
    ensures n < 0x1_0000_0000_0000_0000
    ensures ParseMoreNumbers(ts, acc) == ParseMoreNumbers(rest, acc + [n as uint64])
  {
  }

  lemma {:induction false} MoreNumbersRead(ns: seq<uint64>, acc: seq<uint64>, close: seq<Token>)
    requires |close| > 0 && close[0] == Token(Punct, ")")
    ensures ParseMoreNumbers(MoreNumbersOnto(ns, close), acc) == (acc + ns, close)
  {
    if ns == [] {
      assert acc + ns == acc;
    } else {
      var n := ns[0] as nat;
      var more := MoreNumbersOnto(ns[1..], close);
      var ts := MoreNumbersOnto(ns, close);
      assert n as uint64 == ns[0];
      calc {
        ParseMoreNumbers(ts, acc);
        { assert ts[1..] == NumberOnto(n, more);
          UnsignedRead(n, 0x1_0000_0000_0000_0000, more);
          MoreNumbersStep(ts, acc, n, more); }
        ParseMoreNumbers(more, acc + [ns[0]]);
        { MoreNumbersRead(ns[1..], acc + [ns[0]], close); }
        (acc + [ns[0]] + ns[1..], close);
        { assert acc + [ns[0]] + ns[1..] == acc + ns; }
        (acc + ns, close);
      }
    }
  }

  /** ParseDate, step by step. */
  lemma {:induction false} DateSteps(ts: seq<Token>, year: nat, ts1: seq<Token>, month: nat, ts2: seq<Token>,
                  day: nat, ts3: seq<Token>, more: seq<uint64>, ts4: seq<Token>)
    requires IsLit(ts, "new") && IsLit(ts[1..], "Date") && IsLit(ts[2..], "(")
    requires ParseUnsigned(ts[3..], 0x1_0000) == Ok((year, ts1)) && IsLit(ts1, ",")
    requires ParseUnsigned(ts1[1..], 0x100) == Ok((month, ts2)) && IsLit(ts2, ",")
    requires ParseUnsigned(ts2[1..], 0x100) == Ok((day, ts3))
    requires ParseMoreNumbers(ts3, []) == (more, ts4) && IsLit(ts4, ")")
    ensures year < 0x1_0000 && month < 0x100 && day < 0x100
    ensures ParseDate(ts) == Ok((JDate(year as uint16, month as uint8, day as uint8, more), ts4[1..]))
  {
  }

  lemma DateRead(d: JDate, rest: seq<Token>)
    ensures ParseDate(DateOnto(d, rest)) == Ok((d, rest))
  {
    var close := [Token(Punct, ")")] + rest;
    var more := MoreNumbersOnto(d.MoreValues, close);
    var afterMonth := [Comma] + NumberOnto(d.Day as nat, more);
    var afterYear := [Comma] + NumberOnto(d.Month as nat, afterMonth);
    var ts := DateOnto(d, rest);
    assert ts[3..] == NumberOnto(d.Year as nat, afterYear);
    UnsignedRead(d.Year as nat, 0x1_0000, afterYear);
    assert afterYear[1..] == NumberOnto(d.Month as nat, afterMonth);
    UnsignedRead(d.Month as nat, 0x100, afterMonth);
    assert afterMonth[1..] == NumberOnto(d.Day as nat, more);
    UnsignedRead(d.Day as nat, 0x100, more);
    MoreNumbersRead(d.MoreValues, [], close);
    assert [] + d.MoreValues == d.MoreValues;
    DateSteps(ts, d.Year as nat, afterYear, d.Month as nat, afterMonth, d.Day as nat, more,
      d.MoreValues, close);
  }

  /** The source text of every well-formed, plain value lexes and parses back to that
      value. */
  lemma {:induction false} SourceRoundTrip(v: JValue)
    requires WellFormed(v) && Plain(v)
    ensures ParseText(SourceText(v)) == Ok(v)
  {
    TokensPrintable(v, []);
    LexRender(Tokens(v));
    ValueRead(v, []);
  }

  // Every token of a value's source is printable

  lemma {:induction false} DigitsPrintable(s: string, rest: seq<Token>)
    requires AllDigits(s) && AllPrintable(rest)
    ensures AllPrintable(DigitsOnto(s, rest))
  {
    if s != [] {
      DigitsPrintable(s[1..], rest);
    }
  }

  lemma {:induction false} TokensPrintable(v: JValue, rest: seq<Token>)
    requires WellFormed(v) && Plain(v) && AllPrintable(rest)
    ensures AllPrintable(TokensOnto(v, rest))
    decreases v, 3
  {
    if v.Literal.Some? {
      var l := v.Literal.value;
      if l.Null == "" && l.Boolean.None? && l.String.None? {
        if l.Decimal.Some? {
          var f := l.Decimal.value;
          DigitsPrintable(f.frac, rest);
          DigitsPrintable(f.whole, [Dot] + DigitsOnto(f.frac, rest));
        } else {
          var n := l.Integer.value as int;
          DigitsPrintable(Digits(if n < 0 then -n else n), rest);
        }
      }
    } else if v.Object.Some? {
      FieldsPrintable(v.Object.value.Fields, [Token(Punct, "}")] + rest);
    } else if v.Array.Some? {
      ValuesPrintable(v.Array.value.Values, [Token(Punct, "]")] + rest);
    } else {
      DatePrintable(v.Date.value, rest);
    }
  }

  lemma {:induction false} FieldsPrintable(fs: seq<JField>, rest: seq<Token>)
    requires WellFormedFields(fs) && PlainFields(fs) && AllPrintable(rest)
    ensures AllPrintable(FieldsOnto(fs, rest)) && AllPrintable(MoreFieldsOnto(fs, rest))
    decreases fs, 2
  {
    if fs != [] {
      FieldsPrintable(fs[1..], rest);
      FieldPrintable(fs[0], MoreFieldsOnto(fs[1..], rest));
    }
  }

  lemma {:induction false} FieldPrintable(f: JField, rest: seq<Token>)
    requires IsIdent(f.Key) && !StartsWith(f.Key, "null") && !StartsWith(f.Key, "undefined")
    requires WellFormed(f.Value) && Plain(f.Value) && AllPrintable(rest)
    ensures AllPrintable(FieldOnto(f, rest))
    decreases f, 0
  {
    TokensPrintable(f.Value, rest);
  }

  lemma {:induction false} ValuesPrintable(vs: seq<JValue>, rest: seq<Token>)
    requires WellFormedValues(vs) && PlainValues(vs) && AllPrintable(rest)
    ensures AllPrintable(ValuesOnto(vs, rest)) && AllPrintable(MoreValuesOnto(vs, rest))
    decreases vs, 2
  {
    if vs != [] {
      ValuesPrintable(vs[1..], rest);
      TokensPrintable(vs[0], MoreValuesOnto(vs[1..], rest));
    }
  }

  lemma {:induction false} MoreNumbersPrintable(ns: seq<uint64>, rest: seq<Token>)
    requires AllPrintable(rest)
    ensures AllPrintable(MoreNumbersOnto(ns, rest))
  {
    if ns != [] {
      MoreNumbersPrintable(ns[1..], rest);
      DigitsPrintable(Digits(ns[0] as nat), MoreNumbersOnto(ns[1..], rest));
    }
  }

  lemma DatePrintable(d: JDate, rest: seq<Token>)
    requires AllPrintable(rest)
    ensures AllPrintable(DateOnto(d, rest))
  {
    var more := MoreNumbersOnto(d.MoreValues, [Token(Punct, ")")] + rest);
    MoreNumbersPrintable(d.MoreValues, [Token(Punct, ")")] + rest);
    DigitsPrintable(Digits(d.Day as nat), more);
    var afterMonth := [Comma] + NumberOnto(d.Day as nat, more);
    DigitsPrintable(Digits(d.Month as nat), afterMonth);
    var afterYear := [Comma] + NumberOnto(d.Month as nat, afterMonth);
    DigitsPrintable(Digits(d.Year as nat), afterYear);
  }
}
