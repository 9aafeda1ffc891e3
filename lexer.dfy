/** The lexer of newParser: six rules tried in order at each position, the first that
    matches wins; Whitespace tokens are dropped and String tokens unquoted before the
    grammar sees them. The String rule is read as intended (a backslash escapes any
    character, `QuotedLength`); the rule as written is `QuotedLengthAsWritten`. */
module Lexer {
  import opened Wrappers
  import opened Numbers
  import opened Chars
  import opened Quoting

  datatype Kind = Null | Digit | Ident | String | Punct | Whitespace

  /** A token as a rule matched it: the rule and the text. */
  datatype RawToken = RawToken(kind: Kind, text: string)

  /** A token as the grammar sees it: a String's value is the unquoted text. */
  datatype Token = Token(kind: Kind, value: string)

  datatype LexError =
    | NoRuleMatches(at: string)
    | BadString(text: string, cause: UnquoteError)

  predicate StartsWith(s: string, p: string) {
    |p| <= |s| && s[..|p|] == p
  }

  /** The end of the \w run of s that starts at i. */
  function WordEnd(s: string, i: nat): (e: nat)
    requires i <= |s|
    ensures i <= e <= |s|
    ensures forall k :: i <= k < e ==> IsWordChar(s[k])
    ensures e == |s| || !IsWordChar(s[e])
    decreases |s| - i
  {
    if i < |s| && IsWordChar(s[i]) then WordEnd(s, i + 1) else i
  }

  /** The end of the run of whitespace of s that starts at i. */
  function SpaceEnd(s: string, i: nat): (e: nat)
    requires i <= |s|
    ensures i <= e <= |s|
    ensures forall k :: i <= k < e ==> IsSpace(s[k])
    ensures e == |s| || !IsSpace(s[e])
    decreases |s| - i
  {
    if i < |s| && IsSpace(s[i]) then SpaceEnd(s, i + 1) else i
  }

  /** An optional length, lengthened by n. */
  function Shift(o: Option<nat>, n: nat): (r: Option<nat>)
    ensures r.Some? <==> o.Some?
    ensures r.Some? ==> r.value == o.value + n
  {
    if o.Some? then Some(o.value + n) else None
  }

  /** The String rule as it is meant to read, and as the model's lexer reads it: s is the
      text after an opening quote q, and the result is how much of it the string takes,
      up to and including the first q that is not escaped, a backslash escaping whatever
      character follows it. None when the text ends first. QuotedLengthAsWritten below is
      the rule as the source writes it. */
  function QuotedLength(s: string, q: char): (r: Option<nat>)
    ensures r.Some? ==> 0 < r.value <= |s| && s[r.value - 1] == q
  {
    if s == [] then None
    else if s[0] == q then Some(1)
    else if s[0] == '\\' then (if |s| >= 2 then Shift(QuotedLength(s[2..], q), 2) else None)
    else Shift(QuotedLength(s[1..], q), 1)
  }

  /** The String rule's regular expression, "(\\"|[^"])*" (and its single-quoted twin), as
      written, under Go's leftmost-first semantics: a backslash escapes only a following
      quote, the first quote not so escaped closes the string, and when the text ends
      first the match falls back to the quote of the last \q pair read. */
  function QuotedLengthAsWritten(s: string, q: char): (r: Option<nat>)
    ensures r.Some? ==> 0 < r.value <= |s| && s[r.value - 1] == q
  {
    if s == [] then None
    else if s[0] == q then Some(1)
    else if s[0] == '\\' && |s| >= 2 && s[1] == q then
      (match QuotedLengthAsWritten(s[2..], q)
       case Some(n) => Some(n + 2)
       case None => Some(2))
    else Shift(QuotedLengthAsWritten(s[1..], q), 1)
  }

  /** As written, the rule runs past the closing quote of a string that ends in an escaped
      backslash whenever another quote follows later: after the opening quote of
      "a\\" " it takes all six remaining characters, and the seven do not unquote, where
      the five-character string %q writes for a\ was meant. */
  lemma StringRuleDiscrepancy()
    ensures var s := "\"a\\\\\" \"";
      QuotedLengthAsWritten(s[1..], '"') == Some(6) && Unquote(s).Err? &&
      QuotedLength(s[1..], '"') == Some(4) && s[..5] == Quote("a\\") && Unquote(s[..5]) == Ok("a\\")
  {
    var s := "\"a\\\\\" \"";
    var t := s[1..];
    assert t[1..][1..] == t[2..] && t[2..][2..] == t[4..] && t[4..][1..] == t[5..];
    assert QuotedLengthAsWritten(t[5..], '"') == Some(1);
    assert QuotedLengthAsWritten(t[4..], '"') == Some(2);
    assert QuotedLengthAsWritten(t[2..], '"') == Some(4);
    assert QuotedLength(t[3..], '"') == Some(1);
    assert t[1..][2..] == t[3..];
    QuoteRoundTrip("a\\");
    assert s[..5] == Quote("a\\");
    EscapedBackslashThenQuote(s);
  }

  /** A body holding a quote after an escaped backslash does not unquote. */
  lemma EscapedBackslashThenQuote(s: string)
    requires s == "\"a\\\\\" \""
    ensures Unquote(s).Err?
  {
    var body := s[1..6];
    assert UnquoteChar(body, '"') == Ok(('a', body[1..]));
    assert UnquoteChar(body[1..], '"') == Ok(('\\', body[3..]));
    assert UnquoteChar(body[3..], '"').Err?;
    assert s[1..|s| - 1] == body;
    assert UnquoteBody(body[3..], '"').Err?;
    assert UnquoteBody(body[1..], '"').Err?;
  }

  /** What each rule matches on its own. */
  predicate RuleMatches(t: RawToken) {
    match t.kind
    case Null => t.text == "null" || t.text == "undefined"
    case Digit => |t.text| == 1 && IsDigit(t.text[0])
    case Ident => IsIdent(t.text)
    case String =>
      |t.text| >= 2 && (t.text[0] == '"' || t.text[0] == '\'') &&
      t.text[|t.text| - 1] == t.text[0]
    case Punct => |t.text| == 1 && IsPunct(t.text[0])
    case Whitespace => |t.text| > 0 && forall k :: 0 <= k < |t.text| ==> IsSpace(t.text[k])
  }

  /** The token at the start of s: the rules in their order (Null, Digit, Ident, String,
      Punct, Whitespace), the first that matches. Within a rule the regular expression's
      own preference holds: "null" before "undefined", the longest identifier and
      whitespace run. */
  function Next(s: string): (r: Result<RawToken, LexError>)
    requires |s| > 0
    ensures r.Ok? ==> 0 < |r.value.text| <= |s| && s[..|r.value.text|] == r.value.text
    ensures r.Ok? ==> RuleMatches(r.value)
    ensures r.Err? <==> !IsLetter(s[0]) && !IsDigit(s[0]) && !IsPunct(s[0]) && !IsSpace(s[0])
  {
    if StartsWith(s, "null") then Ok(RawToken(Null, "null"))
    else if StartsWith(s, "undefined") then Ok(RawToken(Null, "undefined"))
    else if IsDigit(s[0]) then Ok(RawToken(Digit, s[..1]))
    else if IsLetter(s[0]) then Ok(RawToken(Ident, s[..WordEnd(s, 1)]))
    else if (s[0] == '"' || s[0] == '\'') && QuotedLength(s[1..], s[0]).Some? then
      Ok(RawToken(String, s[..1 + QuotedLength(s[1..], s[0]).value]))
    else if IsPunct(s[0]) then Ok(RawToken(Punct, s[..1]))
    else if IsSpace(s[0]) then Ok(RawToken(Whitespace, s[..SpaceEnd(s, 1)]))
    else Err(NoRuleMatches(s))
  }

  // Which rule Next picks, one lemma per rule

  lemma NextNull(s: string)
    requires StartsWith(s, "null")
    ensures Next(s) == Ok(RawToken(Null, "null"))
  {
  }

  lemma NextUndefined(s: string)
    requires |s| > 0 && s[0] == 'u' && StartsWith(s, "undefined")
    ensures Next(s) == Ok(RawToken(Null, "undefined"))
  {
    assert !StartsWith(s, "null");
  }

  lemma NextDigit(s: string)
    requires |s| > 0 && IsDigit(s[0])
    ensures Next(s) == Ok(RawToken(Digit, s[..1]))
  {
    assert !StartsWith(s, "null") && !StartsWith(s, "undefined");
  }

  lemma {:induction false} NextIdent(s: string)
    requires |s| > 0 && IsLetter(s[0]) && !StartsWith(s, "null") && !StartsWith(s, "undefined")
    ensures Next(s) == Ok(RawToken(Ident, s[..WordEnd(s, 1)]))
  {
  }

  lemma NextString(s: string)
    requires |s| > 0 && s[0] == '"' && QuotedLength(s[1..], '"').Some?
    ensures Next(s) == Ok(RawToken(String, s[..1 + QuotedLength(s[1..], '"').value]))
  {
    assert !StartsWith(s, "null") && !StartsWith(s, "undefined");
  }

  lemma NextPunct(s: string)
    requires |s| > 0 && IsPunct(s[0]) && s[0] != '"' && s[0] != '\''
    ensures Next(s) == Ok(RawToken(Punct, s[..1]))
  {
    assert !StartsWith(s, "null") && !StartsWith(s, "undefined");
  }

  lemma {:induction false} NextSpace(s: string)
    requires |s| > 0 && IsSpace(s[0])
    ensures Next(s) == Ok(RawToken(Whitespace, s[..SpaceEnd(s, 1)]))
  {
    assert !StartsWith(s, "null") && !StartsWith(s, "undefined");
    assert !IsDigit(s[0]) && !IsLetter(s[0]) && s[0] != '"' && s[0] != '\'' && !IsPunct(s[0]);
  }

  /** The whole text cut into tokens, whitespace included. */
  function LexRaw(s: string): Result<seq<RawToken>, LexError>
    decreases |s|
  {
    if s == [] then Ok([])
    else
      var t :- Next(s);
      var rest :- LexRaw(s[|t.text|..]);
      Ok([t] + rest)
  }

  /** The texts of the tokens one after the other. */
  function Texts(ts: seq<RawToken>): string {
    if ts == [] then "" else ts[0].text + Texts(ts[1..])
  }

  /** The token stream the grammar reads: Whitespace elided, String texts unquoted. */
  function Cook(ts: seq<RawToken>): Result<seq<Token>, LexError> {
    if ts == [] then Ok([])
    else
      var rest :- Cook(ts[1..]);
      var t := ts[0];
      if t.kind == Whitespace then Ok(rest)
      else if t.kind == String then
        if |t.text| < 2 then Err(BadString(t.text, UnquoteError(t.text)))
        else match Unquote(t.text)
          case Err(e) => Err(BadString(t.text, e))
          case Ok(v) => Ok([Token(String, v)] + rest)
      else Ok([Token(t.kind, t.text)] + rest)
  }

  function Lex(s: string): Result<seq<Token>, LexError> {
    var raw :- LexRaw(s);
    Cook(raw)
  }

  /** The lexer loses nothing: the tokens' texts, whitespace included, spell the input. */
  lemma {:induction false} LexRawCovers(s: string)
    requires LexRaw(s).Ok?
    ensures Texts(LexRaw(s).value) == s
    ensures forall k :: 0 <= k < |LexRaw(s).value| ==> RuleMatches(LexRaw(s).value[k])
    decreases |s|
  {
    if s != [] {
      var t := Next(s).value;
      var rest := s[|t.text|..];
      LexRawCovers(rest);
      var ts := LexRaw(s).value;
      assert ts == [t] + LexRaw(rest).value;
      assert ts[1..] == LexRaw(rest).value;
      assert t.text + rest == s;
    }
  }

  /** A token the grammar can receive from the lexer. */
  predicate Lexed(t: Token) {
    t.kind != Whitespace &&
    (t.kind != String ==> RuleMatches(RawToken(t.kind, t.value)))
  }

  lemma {:induction false} CookLexed(ts: seq<RawToken>)
    requires forall k :: 0 <= k < |ts| ==> RuleMatches(ts[k])
    requires Cook(ts).Ok?
    ensures forall k :: 0 <= k < |Cook(ts).value| ==> Lexed(Cook(ts).value[k])
  {
    if ts != [] {
      CookLexed(ts[1..]);
    }
  }

  /** Every token the lexer hands over is one its rule can match, never whitespace. */
  lemma LexLexed(s: string)
    requires Lex(s).Ok?
    ensures forall k :: 0 <= k < |Lex(s).value| ==> Lexed(Lex(s).value[k])
  {
    LexRawCovers(s);
    CookLexed(LexRaw(s).value);
  }
}
