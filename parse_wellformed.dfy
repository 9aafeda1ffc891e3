/** What the grammar guarantees about the values it builds from the lexer's tokens. */
module ParseWellFormed {
  import opened Wrappers
  import opened Numbers
  import opened Chars
  import opened FloatFormat
  import opened Ast
  import opened Lexer
  import opened Parser

  /** Every token of ts is one the lexer can hand over. */
  predicate AllLexed(ts: seq<Token>) {
    forall k :: 0 <= k < |ts| ==> Lexed(ts[k])
  }

  lemma ValuesFront(ts: seq<Token>, n: nat)
    requires 0 < n <= |ts|
    ensures Values(ts[..n]) == ts[0].value + Values(ts[1..n])
  {
    assert ts[..n][1..] == ts[1..n];
  }

  lemma {:induction false} FieldsSnoc(fs: seq<JField>, f: JField)
    requires WellFormedFields(fs) && IsIdent(f.Key) && WellFormed(f.Value)
    ensures WellFormedFields(fs + [f])
  {
    if fs != [] {
      FieldsSnoc(fs[1..], f);
      assert (fs + [f])[1..] == fs[1..] + [f];
    }
  }

  lemma {:induction false} ValuesSnoc(vs: seq<JValue>, v: JValue)
    requires WellFormedValues(vs) && WellFormed(v)
    ensures WellFormedValues(vs + [v])
  {
    if vs != [] {
      ValuesSnoc(vs[1..], v);
      assert (vs + [v])[1..] == vs[1..] + [v];
    }
  }

  /** A Decimal the grammar reads has digits on both sides of the point. */
  lemma DecimalWellFormed(ts: seq<Token>)
    requires AllLexed(ts) && ParseDecimal(ts).Ok?
    ensures ParseDecimal(ts).value.0.whole != [] && ParseDecimal(ts).value.0.frac != []
    ensures AllLexed(ParseDecimal(ts).value.1)
  {
    var (negative, ts1) := Sign(ts);
    var n1 := DigitCount(ts1);
    var ts3 := ts1[n1..][1..];
    var n2 := DigitCount(ts3);
    ValuesFront(ts1, n1);
    ValuesFront(ts3, n2);
    assert Lexed(ts1[0]) && Lexed(ts3[0]);
  }

  /** A literal the grammar reads has exactly one alternative set, and a Null is spelled
      "null" or "undefined". */
  lemma LiteralWellFormed(ts: seq<Token>)
    requires AllLexed(ts) && ParseLiteral(ts).Ok?
    ensures WellFormedLiteral(ParseLiteral(ts).value.0)
    ensures AllLexed(ParseLiteral(ts).value.1)
  {
    if IsKind(ts, Null) {
      assert Lexed(ts[0]);
    } else if IsLit(ts, "true") || IsLit(ts, "false") || IsKind(ts, String) {
    } else if ParseDecimal(ts).Ok? {
      DecimalWellFormed(ts);
    }
  }

  /** Every value the grammar reads from the lexer's tokens has exactly one alternative
      set at every level, and every key is an identifier. */
  lemma {:induction false} ValueWellFormed(ts: seq<Token>)
    requires AllLexed(ts) && ParseValue(ts).Ok?
    ensures WellFormed(ParseValue(ts).value.0)
    ensures AllLexed(ParseValue(ts).value.1)
    decreases |ts|, 1
  {
    if ParseLiteral(ts).Ok? {
      LiteralWellFormed(ts);
    } else if ParseObject(ts).Ok? {
      ObjectWellFormed(ts);
    } else if ParseArray(ts).Ok? {
      ArrayWellFormed(ts);
    } else {
      DateRest(ts);
    }
  }

  lemma {:induction false} ObjectWellFormed(ts: seq<Token>)
    requires AllLexed(ts) && ParseObject(ts).Ok?
    ensures WellFormedFields(ParseObject(ts).value.0.Fields)
    ensures AllLexed(ParseObject(ts).value.1)
    decreases |ts|, 0
  {
    var body := ts[1..];
    if ParseField(body).Ok? {
      var (f, rest) := ParseField(body).value;
      FieldWellFormed(body);
      assert WellFormedFields([f]) by { assert [f][1..] == []; }
      MoreFieldsWellFormed(rest, [f]);
    }
  }

  lemma {:induction false} FieldWellFormed(ts: seq<Token>)
    requires AllLexed(ts) && ParseField(ts).Ok?
    ensures IsIdent(ParseField(ts).value.0.Key) && WellFormed(ParseField(ts).value.0.Value)
    ensures AllLexed(ParseField(ts).value.1)
    decreases |ts|, 0
  {
    assert Lexed(ts[0]);
    ValueWellFormed(ts[2..]);
  }

  lemma {:induction false} MoreFieldsWellFormed(ts: seq<Token>, acc: seq<JField>)
    requires AllLexed(ts) && WellFormedFields(acc)
    ensures WellFormedFields(ParseMoreFields(ts, acc).0)
    ensures AllLexed(ParseMoreFields(ts, acc).1)
    decreases |ts|, 2
  {
    if IsLit(ts, ",") && ParseField(ts[1..]).Ok? {
      var (f, rest) := ParseField(ts[1..]).value;
      FieldWellFormed(ts[1..]);
      FieldsSnoc(acc, f);
      MoreFieldsWellFormed(rest, acc + [f]);
    }
  }

  lemma {:induction false} ArrayWellFormed(ts: seq<Token>)
    requires AllLexed(ts) && ParseArray(ts).Ok?
    ensures WellFormedValues(ParseArray(ts).value.0.Values)
    ensures AllLexed(ParseArray(ts).value.1)
    decreases |ts|, 0
  {
    var body := ts[1..];
    if ParseValue(body).Ok? {
      var (v, rest) := ParseValue(body).value;
      ValueWellFormed(body);
      assert WellFormedValues([v]) by { assert [v][1..] == []; }
      MoreValuesWellFormed(rest, [v]);
    }
  }

  lemma {:induction false} MoreValuesWellFormed(ts: seq<Token>, acc: seq<JValue>)
    requires AllLexed(ts) && WellFormedValues(acc)
    ensures WellFormedValues(ParseMoreValues(ts, acc).0)
    ensures AllLexed(ParseMoreValues(ts, acc).1)
    decreases |ts|, 2
  {
    if IsLit(ts, ",") && ParseValue(ts[1..]).Ok? {
      var (v, rest) := ParseValue(ts[1..]).value;
      ValueWellFormed(ts[1..]);
      ValuesSnoc(acc, v);
      MoreValuesWellFormed(rest, acc + [v]);
    }
  }

  lemma {:induction false} MoreNumbersRest(ts: seq<Token>, acc: seq<uint64>)
    requires AllLexed(ts)
    ensures AllLexed(ParseMoreNumbers(ts, acc).1)
    decreases |ts|
  {
    if IsLit(ts, ",") && ParseUnsigned(ts[1..], 0x1_0000_0000_0000_0000).Ok? {
      var (n, rest) := ParseUnsigned(ts[1..], 0x1_0000_0000_0000_0000).value;
      MoreNumbersRest(rest, acc + [n as uint64]);
    }
  }

  lemma DateRest(ts: seq<Token>)
    requires AllLexed(ts) && ParseDate(ts).Ok?
    ensures AllLexed(ParseDate(ts).value.1)
  {
    var (year, ts1) := ParseUnsigned(ts[3..], 0x1_0000).value;
    var (month, ts2) := ParseUnsigned(ts1[1..], 0x100).value;
    var (day, ts3) := ParseUnsigned(ts2[1..], 0x100).value;
    MoreNumbersRest(ts3, []);
  }

  /** The parser's Parse and ParseString: a value read from text is well formed. */
  lemma ParseTextWellFormed(s: string)
    requires ParseText(s).Ok?
    ensures WellFormed(ParseText(s).value)
  {
    LexLexed(s);
    ValueWellFormed(Lex(s).value);
  }
}
