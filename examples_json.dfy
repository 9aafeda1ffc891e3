/** The parse-then-serialise cases of the repository's JSON tests, each read by the model's
    lexer and grammar and written back by the serialiser. */
module JsonExamples {
  import opened Wrappers
  import opened Ast
  import opened Lexer
  import opened Parser
  import opened Serializer
  import opened Numbers
  import opened Chars
  import opened Quoting
  import opened Rendering
  import opened Source

  /** `null` and `undefined` both lex as the Null rule and both serialise as null. */
  lemma NullSpellings()
    ensures ParseText("null") == Ok(LiteralValue(JLiteral("null", None, None, None, None)))
    ensures ParseText("undefined") == Ok(LiteralValue(JLiteral("undefined", None, None, None, None)))
    ensures ValueJSON(ParseText("null").value) == "null"
    ensures ValueJSON(ParseText("undefined").value) == "null"
  {
    NextNull("null");
    NextUndefined("undefined");
  }

  /** `true` and `false` are captured by JBoolean and printed back as they were. */
  lemma Booleans()
    ensures ParseText("true") == Ok(LiteralValue(JLiteral("", Some(true), None, None, None)))
    ensures ParseText("false") == Ok(LiteralValue(JLiteral("", Some(false), None, None, None)))
    ensures ValueJSON(ParseText("true").value) == "true"
    ensures ValueJSON(ParseText("false").value) == "false"
  {
    NextIdent("true");
    NextIdent("false");
  }

  /** A quoted body with no quote and no backslash: the String rule closes on the quote
      that follows it. */
  lemma {:induction false} PlainQuotedLength(u: string, q: char)
    requires forall k :: 0 <= k < |u| ==> u[k] != q && u[k] != '\\'
    ensures QuotedLength(u + [q], q) == Some(|u| + 1)
  {
    if u != [] {
      assert (u + [q])[1..] == u[1..] + [q];
      PlainQuotedLength(u[1..], q);
    }
  }

  /** ... and unquoting it gives it back unchanged. */
  lemma {:induction false} PlainUnquoted(u: string, q: char)
    requires q == '"' || q == '\''
    requires forall k :: 0 <= k < |u| ==> u[k] != q && u[k] != '\\'
    ensures UnquoteBody(u, q) == Ok(u)
  {
    if u != [] {
      PlainUnquoted(u[1..], q);
      assert [u[0]] + u[1..] == u;
    }
  }

  /** A string quoted with q and holding no quote and no backslash lexes as one String
      token whose value is the text between the quotes. */
  lemma QuotedLex(u: string, q: char)
    requires q == '"' || q == '\''
    requires forall k :: 0 <= k < |u| ==> u[k] != q && u[k] != '\\'
    ensures Lex([q] + u + [q]) == Ok([Token(String, u)])
  {
    var s := [q] + u + [q];
    assert Next(s) == Ok(RawToken(String, s)) by {
      assert s[0] == q && s[1..] == u + [q];
      PlainQuotedLength(u, q);
      assert !StartsWith(s, "null") && !StartsWith(s, "undefined");
      assert s[..1 + (|u| + 1)] == s;
    }
    assert s[|s|..] == [];
    LexRawCons(s, RawToken(String, s), []);
    assert s[0] == q && s[1..|s| - 1] == u;
    PlainUnquoted(u, q);
    assert Unquote(s) == Ok(u);
    var raw := [RawToken(String, s)];
    assert raw[1..] == [] && raw[0].text == s;
    assert Cook(raw[1..]) == Ok([]);
    assert [Token(String, u)] + [] == [Token(String, u)];
    assert Cook(raw) == Ok([Token(String, u)]);
  }

  /** Such a string, unless it spells true or false, parses as a String literal and
      serialises as %q writes it. */
  lemma QuotedRead(u: string, q: char)
    requires q == '"' || q == '\''
    requires forall k :: 0 <= k < |u| ==> u[k] != q && u[k] != '\\'
    requires u != "true" && u != "false"
    ensures ParseText([q] + u + [q]) == Ok(LiteralValue(JLiteral("", None, Some(u), None, None)))
    ensures ValueJSON(ParseText([q] + u + [q]).value) == Quote(u)
  {
    var l := JLiteral("", None, Some(u), None, None);
    QuotedLex(u, q);
    assert ParseLiteral([Token(String, u)]) == Ok((l, []));
  }

  lemma AbcdefgQuoted()
    ensures Quote("abcdefg") == "\"abcdefg\""
  {
    var u := "abcdefg";
    assert forall i :: 0 <= i < |u| ==> IsWordChar(u[i]);
    QuoteBodyWord(u);
  }

  /** json_test.go's single-quoted 'abcdefg' reads as the String abcdefg and serialises
      double-quoted. */
  lemma SingleQuoted()
    ensures ParseText("'abcdefg'") == Ok(LiteralValue(JLiteral("", None, Some("abcdefg"), None, None)))
    ensures ValueJSON(ParseText("'abcdefg'").value) == "\"abcdefg\""
  {
    var u := "abcdefg";
    assert "'abcdefg'" == ['\''] + u + ['\''];
    QuotedRead(u, '\'');
    AbcdefgQuoted();
  }

  // Lexing a text piece by piece, from its end

  /** One token taken from the front, then the rest lexed. */
  lemma LexStep(s: string, x: RawToken, ts: seq<Token>)
    requires s != [] && Next(s) == Ok(x) && x.kind != String
    requires Lex(s[|x.text|..]) == Ok(ts)
    ensures Lex(s) == Ok(if x.kind == Whitespace then ts else [Token(x.kind, x.text)] + ts)
  {
    var raw := LexRaw(s[|x.text|..]).value;
    LexRawCons(s, x, raw);
    assert ([x] + raw)[1..] == raw;
  }

  lemma {:induction false} LexDigits(s: string, r: string, ts: seq<Token>)
    requires AllDigits(s) && Lex(r) == Ok(ts)
    ensures Lex(s + r) == Ok(DigitsOnto(s, ts))
  {
    if s == [] {
      assert s + r == r;
    } else {
      var t := s + r;
      assert t[0] == s[0];
      NextDigit(t);
      assert t[..1] == [s[0]] && t[1..] == s[1..] + r;
      LexDigits(s[1..], r, ts);
      LexStep(t, RawToken(Digit, [s[0]]), DigitsOnto(s[1..], ts));
    }
  }

  lemma LexPunct(c: char, r: string, ts: seq<Token>)
    requires IsPunct(c) && c != '"' && c != '\''
    requires Lex(r) == Ok(ts)
    ensures Lex([c] + r) == Ok([Token(Punct, [c])] + ts)
  {
    var s := [c] + r;
    NextPunct(s);
    assert s[..1] == [c] && s[1..] == r;
    LexStep(s, RawToken(Punct, [c]), ts);
  }

  lemma LexSpace(r: string, ts: seq<Token>)
    requires r != [] && !IsSpace(r[0]) && Lex(r) == Ok(ts)
    ensures Lex(" " + r) == Ok(ts)
  {
    var s := " " + r;
    assert SpaceEnd(s, 1) == 1;
    NextSpace(s);
    assert s[..1] == " " && s[1..] == r;
    LexStep(s, RawToken(Whitespace, " "), ts);
  }

  lemma LexWord(w: string, r: string, ts: seq<Token>)
    requires IsIdent(w) && |w| >= 2 && w[0] != 'u' && (w[0] != 'n' || w[1] != 'u')
    requires r != [] && !IsWordChar(r[0])
    requires Lex(r) == Ok(ts)
    ensures Lex(w + r) == Ok([Token(Ident, w)] + ts)
  {
    var s := w + r;
    assert s[0] == w[0] && s[1] == w[1];
    assert !StartsWith(s, "null") && !StartsWith(s, "undefined");
    WordRun(s, 1, |w|);
    NextIdent(s);
    assert s[..|w|] == w && s[|w|..] == r;
    LexStep(s, RawToken(Ident, w), ts);
  }

  // new Date(y, m, d) with its digit runs as written

  /** "y, m, d)": the digit runs y, m and d written as they stand (leading zeros included),
      with the spacing of json_test.go. */
  function ArgsText(y: string, m: string, d: string): string {
    y + ([','] + (" " + (m + ([','] + (" " + (d + [')']))))))
  }

  /** "new Date(y, m, d)" */
  function DateSource(y: string, m: string, d: string): string {
    "new" + (" " + ("Date" + (['('] + ArgsText(y, m, d))))
  }

  /** The tokens the grammar reads from the arguments: one Digit token per digit. */
  function ArgsTokens(y: string, m: string, d: string): seq<Token> {
    DigitsOnto(y, [Comma] + DigitsOnto(m, [Comma] + DigitsOnto(d, [Token(Punct, ")")])))
  }

  function DateSourceTokens(y: string, m: string, d: string): seq<Token> {
    [Token(Ident, "new")] + ([Token(Ident, "Date")] + ([Token(Punct, "(")] + ArgsTokens(y, m, d)))
  }

  /** A digit run, a comma and a space before text that starts with a digit. */
  lemma {:induction false} ArgLex(x: string, r: string, ts: seq<Token>)
    requires AllDigits(x) && r != [] && IsDigit(r[0]) && Lex(r) == Ok(ts)
    ensures Lex(x + ([','] + (" " + r))) == Ok(DigitsOnto(x, [Comma] + ts))
  {
    LexSpace(r, ts);
    LexPunct(',', " " + r, ts);
    LexDigits(x, [','] + (" " + r), [Comma] + ts);
  }

  /** The last argument and the closing parenthesis. */
  lemma {:induction false} DayLex(d: string)
    requires AllDigits(d)
    ensures Lex(d + [')']) == Ok(DigitsOnto(d, [Token(Punct, ")")]))
  {
    LexPunct(')', "", []);
    assert [')'] + "" == [')'] && [Token(Punct, [')'])] + [] == [Token(Punct, ")")];
    LexDigits(d, [')'], [Token(Punct, ")")]);
  }

  lemma ArgsLex(y: string, m: string, d: string)
    requires AllDigits(y) && AllDigits(m) && AllDigits(d) && m != [] && d != []
    ensures Lex(ArgsText(y, m, d)) == Ok(ArgsTokens(y, m, d))
  {
    var sd := d + [')'];
    DayLex(d);
    assert sd[0] == d[0];
    var sm := m + ([','] + (" " + sd));
    ArgLex(m, sd, DigitsOnto(d, [Token(Punct, ")")]));
    assert sm[0] == m[0];
    ArgLex(y, sm, DigitsOnto(m, [Comma] + DigitsOnto(d, [Token(Punct, ")")])));
  }

  /** "Date(" before the arguments. */
  lemma OpenLex(args: string, ts: seq<Token>)
    requires Lex(args) == Ok(ts)
    ensures Lex("Date" + (['('] + args)) == Ok([Token(Ident, "Date")] + ([Token(Punct, "(")] + ts))
  {
    LexPunct('(', args, ts);
    LexWord("Date", ['('] + args, [Token(Punct, "(")] + ts);
  }

  /** "new Date(" before the arguments; the space is elided. */
  lemma NewLex(args: string, ts: seq<Token>)
    requires Lex(args) == Ok(ts)
    ensures Lex("new" + (" " + ("Date" + (['('] + args)))) ==
      Ok([Token(Ident, "new")] + ([Token(Ident, "Date")] + ([Token(Punct, "(")] + ts)))
  {
    var open := [Token(Ident, "Date")] + ([Token(Punct, "(")] + ts);
    var sD := "Date" + (['('] + args);
    OpenLex(args, ts);
    assert sD[0] == 'D';
    LexSpace(sD, open);
    LexWord("new", " " + sD, open);
  }

  lemma DateSourceLex(y: string, m: string, d: string)
    requires AllDigits(y) && AllDigits(m) && AllDigits(d) && m != [] && d != []
    ensures Lex(DateSource(y, m, d)) == Ok(DateSourceTokens(y, m, d))
  {
    ArgsLex(y, m, d);
    NewLex(ArgsText(y, m, d), ArgsTokens(y, m, d));
  }

  /** Its tokens read under the Date alternative as the date of the numbers the runs
      denote, with no further values, when they fit uint16, uint8 and uint8. */
  lemma {:induction false} DateSourceDate(y: string, m: string, d: string)
    requires AllDigits(y) && AllDigits(m) && AllDigits(d) && y != [] && m != [] && d != []
    requires ValueOf(y) < 0x1_0000 && ValueOf(m) < 0x100 && ValueOf(d) < 0x100
    ensures ParseDate(DateSourceTokens(y, m, d)) ==
      Ok((JDate(ValueOf(y) as uint16, ValueOf(m) as uint8, ValueOf(d) as uint8, []), []))
  {
    var ts := DateSourceTokens(y, m, d);
    var close := [Token(Punct, ")")];
    var ts2 := [Comma] + DigitsOnto(d, close);
    var ts1 := [Comma] + DigitsOnto(m, ts2);
    assert ts[3..] == DigitsOnto(y, ts1);
    DigitRunRead(y, 0x1_0000, ts1);
    assert ts1[1..] == DigitsOnto(m, ts2);
    DigitRunRead(m, 0x100, ts2);
    assert ts2[1..] == DigitsOnto(d, close);
    DigitRunRead(d, 0x100, close);
    assert ParseMoreNumbers(close, []) == ([], close);
    DateSteps(ts, ValueOf(y), ts1, ValueOf(m), ts2, ValueOf(d), close, [], close);
  }

  /** No other alternative reads them, so they parse as that Date value. */
  lemma {:induction false} DateSourceParse(y: string, m: string, d: string)
    requires AllDigits(y) && AllDigits(m) && AllDigits(d) && y != [] && m != [] && d != []
    requires ValueOf(y) < 0x1_0000 && ValueOf(m) < 0x100 && ValueOf(d) < 0x100
    ensures Parse(DateSourceTokens(y, m, d)) ==
      Ok(DateValue(JDate(ValueOf(y) as uint16, ValueOf(m) as uint8, ValueOf(d) as uint8, [])))
  {
    var ts := DateSourceTokens(y, m, d);
    var date := JDate(ValueOf(y) as uint16, ValueOf(m) as uint8, ValueOf(d) as uint8, []);
    DateSourceDate(y, m, d);
    assert ts[0] == Token(Ident, "new");
    NotLiteral(ts);
    ValueByDate(ts, date, []);
  }

  /** The text itself lexes and parses so. */
  lemma {:induction false} DateSourceRead(y: string, m: string, d: string)
    requires AllDigits(y) && AllDigits(m) && AllDigits(d) && y != [] && m != [] && d != []
    requires ValueOf(y) < 0x1_0000 && ValueOf(m) < 0x100 && ValueOf(d) < 0x100
    ensures ParseText(DateSource(y, m, d)) ==
      Ok(DateValue(JDate(ValueOf(y) as uint16, ValueOf(m) as uint8, ValueOf(d) as uint8, [])))
  {
    DateSourceLex(y, m, d);
    DateSourceParse(y, m, d);
  }

  lemma Year1970()
    ensures ValueOf("1970") == 1970 && PadZero(1970, 4) == "1970"
  {
    assert Digits(1970) == "1970";
    DigitsRoundTrip(1970);
  }

  lemma PaddedOne()
    ensures ValueOf("01") == 1 && PadZero(1, 2) == "01"
  {
    ZerosPrefixValue(1, "1");
    assert Zeros(1) + "1" == "01";
  }

  lemma DateLeadingZerosParse()
    ensures ParseText("new Date(1970, 01, 01)") == Ok(DateValue(JDate(1970, 1, 1, [])))
  {
    Year1970();
    PaddedOne();
    assert "new Date(1970, 01, 01)" == DateSource("1970", "01", "01");
    DateSourceRead("1970", "01", "01");
  }

  lemma DateLeadingZerosJSON()
    ensures ValueJSON(DateValue(JDate(1970, 1, 1, []))) == "\"1970-01-01T00:00:00Z\""
  {
    Year1970();
    PaddedOne();
    DateDefaultTime(JDate(1970, 1, 1, []));
    assert DatePart(1970, 1, 1) == "1970-01-01";
  }
}
