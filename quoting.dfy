/** String quoting as the serialiser does it (fmt's %q, i.e. strconv.Quote) and string
    unquoting as the parser does it (each character decoded by strconv.UnquoteChar). */
module Quoting {
  import opened Wrappers

  const LowerHex := "0123456789abcdef"

  predicate IsHex(c: char) {
    '0' <= c <= '9' || 'a' <= c <= 'f' || 'A' <= c <= 'F'
  }

  function HexValue(c: char): (v: nat)
    requires IsHex(c)
    ensures v < 16
  {
    if '0' <= c <= '9' then c as int - 48
    else if 'a' <= c <= 'f' then c as int - 87
    else c as int - 55
  }

  /** The value of a run of hexadecimal digits. */
  function HexRunValue(s: string): nat
    requires forall i :: 0 <= i < |s| ==> IsHex(s[i])
  {
    if s == [] then 0 else HexRunValue(s[..|s| - 1]) * 16 + HexValue(s[|s| - 1])
  }

  /** Two lower-case hex digits of a byte, as appendEscapedRune writes after "\x". */
  function HexByte(b: nat): (r: string)
    requires b < 256
    ensures |r| == 2 && IsHex(r[0]) && IsHex(r[1])
  {
    [LowerHex[b / 16], LowerHex[b % 16]]
  }

  lemma HexDigitValue(k: nat)
    requires k < 16
    ensures IsHex(LowerHex[k]) && HexValue(LowerHex[k]) == k
  {
    assert LowerHex[k] as int == if k < 10 then k + 48 else k + 87;
  }

  lemma HexByteValue(b: nat)
    requires b < 256
    ensures HexRunValue(HexByte(b)) == b
  {
    var r := HexByte(b);
    assert r[..1] == [r[0]];
    assert HexRunValue(r[..1]) == HexValue(r[0]);
    HexDigitValue(b / 16);
    HexDigitValue(b % 16);
  }

  /** A code point Go accepts as a rune: not a surrogate, at most U+10FFFF. */
  predicate ValidRune(v: nat) {
    v < 0xD800 || 0xE000 <= v <= 0x10FFFF
  }

  /** The escape strconv.Quote writes for one character (appendEscapedRune with quote '"').
      Characters beyond ASCII are passed through: they are taken to be printable. */
  function QuoteChar(c: char): (r: string)
    ensures 1 <= |r| <= 4
    ensures '"' in r ==> r == ['\\', '"']
    ensures |r| == 1 <==> r == [c] && c != '"' && c != '\\'
  {
    if c == '"' || c == '\\' then ['\\', c]
    else if ' ' <= c <= '~' || c as int >= 0x80 then [c]
    else if c as int == 7 then "\\a"
    else if c as int == 8 then "\\b"
    else if c as int == 12 then "\\f"
    else if c as int == 10 then "\\n"
    else if c as int == 13 then "\\r"
    else if c as int == 9 then "\\t"
    else if c as int == 11 then "\\v"
    else "\\x" + HexByte(c as int)
  }

  function QuoteBody(s: string): string
  {
    if s == [] then "" else QuoteChar(s[0]) + QuoteBody(s[1..])
  }

  /** fmt's %q on a string: the escaped characters between double quotes. */
  function Quote(s: string): (r: string)
    ensures |r| >= 2 && r[0] == '"' && r[|r| - 1] == '"'
  {
    "\"" + QuoteBody(s) + "\""
  }

  datatype UnquoteError = UnquoteError(at: string)

  /** strconv.UnquoteChar(s, quote): the first character of s decoded, and the rest. */
  function UnquoteChar(s: string, quote: char): (r: Result<(char, string), UnquoteError>)
    requires |s| > 0
    ensures r.Ok? ==> |r.value.1| < |s|
  {
    var c := s[0];
    if c == quote && (quote == '\'' || quote == '"') then Err(UnquoteError(s))
    else if c != '\\' then Ok((c, s[1..]))
    else if |s| <= 1 then Err(UnquoteError(s))
    else
      var e, t := s[1], s[2..];
      if e == 'a' then Ok((7 as char, t))
      else if e == 'b' then Ok((8 as char, t))
      else if e == 'f' then Ok((12 as char, t))
      else if e == 'n' then Ok((10 as char, t))
      else if e == 'r' then Ok((13 as char, t))
      else if e == 't' then Ok((9 as char, t))
      else if e == 'v' then Ok((11 as char, t))
      else if e == 'x' || e == 'u' || e == 'U' then
        var n := if e == 'x' then 2 else if e == 'u' then 4 else 8;
        if |t| < n || exists i :: 0 <= i < n && !IsHex(t[i]) then Err(UnquoteError(s))
        else
          var v := HexRunValue(t[..n]);
          if e != 'x' && !ValidRune(v) then Err(UnquoteError(s))
          else if e == 'x' then
            HexRunBound(t[..n]);
            Ok((v as char, t[n..]))
          else Ok((v as char, t[n..]))
      else if '0' <= e <= '7' then
        if |t| < 2 || !('0' <= t[0] <= '7') || !('0' <= t[1] <= '7') then Err(UnquoteError(s))
        else
          var v := (e as int - 48) * 64 + (t[0] as int - 48) * 8 + (t[1] as int - 48);
          if v > 255 then Err(UnquoteError(s)) else Ok((v as char, t[2..]))
      else if e == '\\' then Ok(('\\', t))
      else if e == '\'' || e == '"' then
        if e != quote then Err(UnquoteError(s)) else Ok((e, t))
      else Err(UnquoteError(s))
  }

  lemma {:induction false} HexRunBound(s: string)
    requires |s| == 2 && IsHex(s[0]) && IsHex(s[1])
    ensures HexRunValue(s) < 256
  {
    assert s[..1] == [s[0]];
    assert HexRunValue(s[..1]) == HexValue(s[0]);
  }

  /** Every character of a quoted body decoded in turn. */
  function UnquoteBody(s: string, quote: char): Result<string, UnquoteError>
    decreases |s|
  {
    if s == [] then Ok("")
    else
      var (c, rest) :- UnquoteChar(s, quote);
      var tail :- UnquoteBody(rest, quote);
      Ok([c] + tail)
  }

  /** The parser's unquoting of a String token: the surrounding quotes dropped and
      the characters between them decoded with the opening quote as the quote. */
  function Unquote(text: string): Result<string, UnquoteError>
    requires |text| >= 2
  {
    UnquoteBody(text[1..|text| - 1], text[0])
  }

  lemma {:induction false} QuoteCharUnquotes(c: char, rest: string)
    ensures UnquoteChar(QuoteChar(c) + rest, '"') == Ok((c, rest))
  {
    var q := QuoteChar(c) + rest;
    if !(c == '"' || c == '\\' || ' ' <= c <= '~' || c as int >= 0x80 || c as int in {7, 8, 9, 10, 11, 12, 13}) {
      var h := HexByte(c as int);
      assert q[2..][..2] == h;
      assert q[2..][2..] == rest;
      HexByteValue(c as int);
    } else if c == '"' || c == '\\' {
      assert q[2..] == rest;
    } else if ' ' <= c <= '~' || c as int >= 0x80 {
      assert q[1..] == rest;
    } else {
      assert q[2..] == rest;
    }
  }

  lemma {:induction false} QuoteBodyUnquotes(s: string)
    ensures UnquoteBody(QuoteBody(s), '"') == Ok(s)
  {
    if s != [] {
      QuoteCharUnquotes(s[0], QuoteBody(s[1..]));
      QuoteBodyUnquotes(s[1..]);
      assert [s[0]] + s[1..] == s;
    }
  }

  /** Unquoting what %q wrote gives the original string back, for every string. */
  lemma QuoteRoundTrip(s: string)
    ensures Unquote(Quote(s)) == Ok(s)
  {
    var r := Quote(s);
    assert r[1..|r| - 1] == QuoteBody(s);
    QuoteBodyUnquotes(s);
  }
}
