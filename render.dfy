/** Semi-JSON source text for a token stream: each token spelled as the lexer reads it,
    followed by one space. Used to state what the lexer reads back. */
module Rendering {
  import opened Wrappers
  import opened Chars
  import opened Numbers
  import opened Quoting
  import opened Lexer

  /** How a token is written in source text: a String quoted as %q does it, every other
      token as its text. */
  function Spelling(t: Token): string {
    if t.kind == String then Quote(t.value) else t.value
  }

  /** The tokens spelled one after the other, each followed by a space. */
  function RenderTokens(ts: seq<Token>): string {
    if ts == [] then "" else Spelling(ts[0]) + " " + RenderTokens(ts[1..])
  }

  /** A token whose spelling the lexer reads back as that same token: the text of a rule
      it matches, an identifier the Null rule does not claim a prefix of, a punctuation
      mark that does not open a String. */
  predicate Printable(t: Token) {
    match t.kind
    case Null => t.value == "null" || t.value == "undefined"
    case Digit => |t.value| == 1 && IsDigit(t.value[0])
    case Ident => IsIdent(t.value) && !StartsWith(t.value, "null") && !StartsWith(t.value, "undefined")
    case String => true
    case Punct => |t.value| == 1 && IsPunct(t.value[0]) && t.value[0] != '"' && t.value[0] != '\''
    case Whitespace => false
  }

  predicate AllPrintable(ts: seq<Token>) {
    forall k :: 0 <= k < |ts| ==> Printable(ts[k])
  }

  /** The raw tokens the lexer cuts the rendering into: each token's spelling, then the
      space. */
  function Raws(ts: seq<Token>): seq<RawToken> {
    if ts == [] then []
    else [RawToken(ts[0].kind, Spelling(ts[0]))] + ([RawToken(Whitespace, " ")] + Raws(ts[1..]))
  }

  lemma {:induction false} ScanPlain(c: char, u: string)
    requires c != '"' && c != '\\'
    ensures QuotedLength([c] + u, '"') == Shift(QuotedLength(u, '"'), 1)
  {
    assert ([c] + u)[1..] == u;
  }

  lemma {:induction false} ScanEscape(e: char, u: string)
    ensures QuotedLength(['\\', e] + u, '"') == Shift(QuotedLength(u, '"'), 2)
  {
    assert (['\\', e] + u)[2..] == u;
  }

  lemma {:induction false} ScanHex(h: string, u: string)
    requires |h| == 2 && IsHex(h[0]) && IsHex(h[1])
    ensures QuotedLength("\\x" + h + u, '"') == Shift(QuotedLength(u, '"'), 4)
  {
    var w := "\\x" + h + u;
    assert w[2..] == [h[0]] + ([h[1]] + u);
    ScanPlain(h[1], u);
    ScanPlain(h[0], [h[1]] + u);
  }

  /** Scanning for the closing quote steps over one character's %q escape whole. */
  lemma {:induction false} ScanChar(c: char, u: string)
    ensures QuotedLength(QuoteChar(c) + u, '"') == Shift(QuotedLength(u, '"'), |QuoteChar(c)|)
  {
    var r := QuoteChar(c);
    if |r| == 1 {
      ScanPlain(c, u);
    } else if |r| == 4 {
      var h := HexByte(c as int);
      assert r == "\\x" + h;
      ScanHex(h, u);
    } else {
      assert r == ['\\', r[1]];
      ScanEscape(r[1], u);
    }
  }

  /** Scans over r and then over b compose into one scan over r + b. */
  lemma {:induction false} ScanConcat(r: string, b: string, u: string)
    requires QuotedLength(r + (b + u), '"') == Shift(QuotedLength(b + u, '"'), |r|)
    requires QuotedLength(b + u, '"') == Shift(QuotedLength(u, '"'), |b|)
    ensures QuotedLength((r + b) + u, '"') == Shift(QuotedLength(u, '"'), |r + b|)
  {
    ShiftShift(QuotedLength(u, '"'), |b|, |r|);
    AppendAssoc(r, b, u);
  }

  lemma AppendAssoc(r: string, b: string, u: string)
    ensures (r + b) + u == r + (b + u)
  {
  }

  lemma ShiftShift(x: Option<nat>, m: nat, n: nat)
    ensures Shift(Shift(x, m), n) == Shift(x, m + n)
  {
  }

  /** Scanning for the closing quote steps over a whole %q body. */
  /** One character of the body: the scan over QuoteBody(v) + u steps over its first
      escape, then over the rest. */
  lemma {:induction false} ScanBodyStep(v: string, u: string)
    requires v != []
    requires QuotedLength(QuoteBody(v[1..]) + u, '"') == Shift(QuotedLength(u, '"'), |QuoteBody(v[1..])|)
    ensures QuotedLength(QuoteBody(v) + u, '"') == Shift(QuotedLength(u, '"'), |QuoteBody(v)|)
  {
    var r, b := QuoteChar(v[0]), QuoteBody(v[1..]);
    ScanChar(v[0], b + u);
    ScanConcat(r, b, u);
    assert QuoteBody(v) == r + b;
  }

  lemma {:induction false} ScanBody(v: string, u: string)
    ensures QuotedLength(QuoteBody(v) + u, '"') == Shift(QuotedLength(u, '"'), |QuoteBody(v)|)
  {
    if v != [] {
      ScanBody(v[1..], u);
      ScanBodyStep(v, u);
    } else {
      assert QuoteBody(v) + u == u;
    }
  }

  /** The String rule's scan ends exactly after the closing quote %q wrote. */
  lemma StringEndQuote(v: string, rest: string)
    ensures var s := Quote(v) + " " + rest;
      QuotedLength(s[1..], '"') == Some(|Quote(v)| - 1)
  {
    var s := Quote(v) + " " + rest;
    var u := "\"" + " " + rest;
    assert s[1..] == QuoteBody(v) + u;
    ScanBody(v, u);
  }

  /** A word followed by a space starts with p only when the word itself does. */
  lemma SpacedPrefix(w: string, rest: string, p: string)
    requires !StartsWith(w, p) && ' ' !in p
    ensures !StartsWith(w + " " + rest, p)
  {
    var s := w + " " + rest;
    if |w| >= |p| {
      assert s[..|p|] == w[..|p|];
    } else if |p| <= |s| {
      assert s[..|p|][|w|] == ' ';
    }
  }

  /** The identifier rule's \w* stops at the first character that is not a word
      character. */
  lemma {:induction false} WordRun(s: string, i: nat, e: nat)
    requires i <= e < |s| && !IsWordChar(s[e])
    requires forall k :: i <= k < e ==> IsWordChar(s[k])
    ensures WordEnd(s, i) == e
    decreases e - i
  {
    if i < e {
      WordRun(s, i + 1, e);
    }
  }

  /** The lexer reads a printable token's spelling, followed by a space, as that token. */
  lemma NextSpelling(t: Token, rest: string)
    requires Printable(t)
    ensures Next(Spelling(t) + " " + rest) == Ok(RawToken(t.kind, Spelling(t)))
  {
    var sp := Spelling(t);
    var s := sp + " " + rest;
    assert s[..|sp|] == sp;
    assert s[0] == sp[0];
    match t.kind
    case Null =>
      if t.value == "null" {
        NextNull(s);
      } else {
        NextUndefined(s);
      }
    case Digit =>
      NextDigit(s);
    case Ident =>
      SpacedPrefix(sp, rest, "null");
      SpacedPrefix(sp, rest, "undefined");
      WordRun(s, 1, |sp|);
      NextIdent(s);
    case String =>
      StringEndQuote(t.value, rest);
      NextString(s);
    case Punct =>
      NextPunct(s);
  }

  /** A printable token's spelling starts with something other than whitespace. */
  lemma SpellingStart(t: Token)
    requires Printable(t)
    ensures |Spelling(t)| > 0 && !IsSpace(Spelling(t)[0])
  {
  }

  /** A single space before text that does not start with whitespace is one Whitespace
      token. */
  lemma {:induction false} LexRawSpace(r: string, rest: seq<RawToken>)
    requires r == [] || !IsSpace(r[0])
    requires LexRaw(r) == Ok(rest)
    ensures LexRaw(" " + r) == Ok([RawToken(Whitespace, " ")] + rest)
  {
    var s := " " + r;
    assert SpaceEnd(s, 1) == 1;
    assert s[1..] == r;
    NextSpace(s);
    LexRawCons(s, RawToken(Whitespace, " "), rest);
  }

  lemma DropWord(w: string, r: string)
    ensures (w + " " + r)[|w|..] == " " + r
  {
  }

  lemma {:induction false} LexRawCons(s: string, x: RawToken, tail: seq<RawToken>)
    requires s != [] && Next(s) == Ok(x)
    requires LexRaw(s[|x.text|..]) == Ok(tail)
    ensures LexRaw(s) == Ok([x] + tail)
  {
  }

  /** One token's spelling and its space, then the rest. */
  lemma {:induction false} LexRawToken(t: Token, r: string, rest: seq<RawToken>)
    requires Printable(t)
    requires r == [] || !IsSpace(r[0])
    requires LexRaw(r) == Ok(rest)
    ensures LexRaw(Spelling(t) + " " + r) ==
      Ok([RawToken(t.kind, Spelling(t))] + ([RawToken(Whitespace, " ")] + rest))
  {
    var sp := Spelling(t);
    var s := sp + " " + r;
    NextSpelling(t, r);
    DropWord(sp, r);
    LexRawSpace(r, rest);
    LexRawCons(s, RawToken(t.kind, sp), [RawToken(Whitespace, " ")] + rest);
  }

  lemma {:induction false} LexRawRender(ts: seq<Token>)
    requires AllPrintable(ts)
    ensures LexRaw(RenderTokens(ts)) == Ok(Raws(ts))
  {
    if ts != [] {
      var r := RenderTokens(ts[1..]);
      if ts[1..] != [] {
        SpellingStart(ts[1]);
      }
      LexRawRender(ts[1..]);
      LexRawToken(ts[0], r, Raws(ts[1..]));
    }
  }

  lemma {:induction false} CookRaws(ts: seq<Token>)
    requires AllPrintable(ts)
    ensures Cook(Raws(ts)) == Ok(ts)
  {
    if ts != [] {
      var raws := Raws(ts);
      CookRaws(ts[1..]);
      assert raws[1..][1..] == Raws(ts[1..]);
      if ts[0].kind == String {
        QuoteRoundTrip(ts[0].value);
      }
      assert [ts[0]] + ts[1..] == ts;
    }
  }

  /** The lexer reads the rendering of printable tokens back as exactly those tokens. */
  lemma {:induction false} LexRender(ts: seq<Token>)
    requires AllPrintable(ts)
    ensures Lex(RenderTokens(ts)) == Ok(ts)
  {
    LexRawRender(ts);
    CookRaws(ts);
  }
}
