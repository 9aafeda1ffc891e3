/** The JSON() methods of the value tree: canonical JSON with no whitespace. */
module Serializer {
  import opened Wrappers
  import opened Numbers
  import opened Chars
  import opened FloatFormat
  import opened Quoting
  import opened Ast

  /** JValue.JSON: the first alternative that is set, in the order Literal, Object, Array,
      Date; the empty string when none is. */
  function ValueJSON(v: JValue): (r: string)
    decreases v
    ensures r == "" <==> NothingSet(v) || (v.Literal.Some? && !LiteralSet(v.Literal.value))
  {
    if v.Literal.Some? then LiteralJSON(v.Literal.value)
    else if v.Object.Some? then ObjectJSON(v.Object.value)
    else if v.Array.Some? then ArrayJSON(v.Array.value)
    else if v.Date.Some? then DateJSON(v.Date.value)
    else ""
  }

  /** No alternative of the value is set. */
  predicate NothingSet(v: JValue) {
    v.Literal.None? && v.Object.None? && v.Array.None? && v.Date.None?
  }

  /** Some alternative of the literal is set. */
  predicate LiteralSet(l: JLiteral) {
    l.Null != "" || l.Boolean.Some? || l.String.Some? || l.Decimal.Some? || l.Integer.Some?
  }

  /** JBoolean.JSON (strconv.FormatBool). */
  function BoolJSON(b: bool): string {
    if b then "true" else "false"
  }

  /** What JBoolean.Capture stores for the captured texts: true exactly for "true". */
  function CapturedBool(values: seq<string>): bool
    requires |values| > 0
  {
    values[0] == "true"
  }

  /** JLiteral.JSON: the first alternative set, in the order Null, Boolean, String, Decimal,
      Integer; the empty string when none is. */
  function LiteralJSON(l: JLiteral): (r: string)
    ensures r == "" <==> !LiteralSet(l)
    ensures l.Null != "" ==> r == "null"
  {
    if l.Null != "" then "null"
    else if l.Boolean.Some? then BoolJSON(l.Boolean.value)
    else if l.String.Some? then Quote(l.String.value)
    else if l.Decimal.Some? then FormatG(l.Decimal.value)
    else if l.Integer.Some? then Itoa(l.Integer.value as int)
    else ""
  }

  /** The elements separated by commas (strings.Join with ","). */
  function Join(xs: seq<string>): string {
    if |xs| == 0 then ""
    else if |xs| == 1 then xs[0]
    else Join(xs[..|xs| - 1]) + "," + xs[|xs| - 1]
  }

  /** Appending an element appends a comma and the element, or just the element to nothing. */
  lemma {:induction false} JoinSnoc(xs: seq<string>, x: string)
    ensures Join(xs + [x]) == if xs == [] then x else Join(xs) + "," + x
  {
    assert (xs + [x])[..|xs|] == xs;
  }

  /** One step of the builders below: after idx elements with a comma pending exactly when
      more follow, writing the next element and its comma keeps that shape. */
  lemma {:induction false} JoinStep(open: string, prefix: seq<string>, x: string, n: nat)
    requires |prefix| < n
    ensures var more := if |prefix| + 1 < n then "," else "";
      open + Join(prefix) + (if 0 < |prefix| then "," else "") + x + more ==
      open + Join(prefix + [x]) + more
  {
    var sep := if 0 < |prefix| then "," else "";
    JoinSnoc(prefix, x);
    assert Join(prefix) + sep + x == Join(prefix + [x]);
    Regroup(open, Join(prefix), sep, x, if |prefix| + 1 < n then "," else "");
  }

  lemma Regroup(a: string, b: string, c: string, d: string, e: string)
    ensures a + b + c + d + e == a + (b + c + d) + e
  {
  }

  /** JObject.JSON: "{", the fields' JSON joined by commas, "}". */
  function ObjectJSON(o: JObject): (r: string)
    decreases o
    ensures |r| >= 2 && r[0] == '{' && r[|r| - 1] == '}'
    ensures o.Fields == [] ==> r == "{}"
  {
    "{" + Join(FieldsJSON(o.Fields)) + "}"
  }

  /** Each field's JSON, in order. */
  function FieldsJSON(fs: seq<JField>): (r: seq<string>)
    decreases fs
    ensures |r| == |fs|
  {
    if fs == [] then [] else FieldsJSON(fs[..|fs| - 1]) + [FieldJSON(fs[|fs| - 1])]
  }

  /** JField.JSON: the key as %q quotes it, a colon, the value's JSON. */
  function FieldJSON(f: JField): string
    decreases f
  {
    Quote(f.Key) + ":" + ValueJSON(f.Value)
  }

  /** JArray.JSON: "[", the values' JSON joined by commas, "]". */
  function ArrayJSON(a: JArray): (r: string)
    decreases a
    ensures |r| >= 2 && r[0] == '[' && r[|r| - 1] == ']'
    ensures a.Values == [] ==> r == "[]"
  {
    "[" + Join(ValuesJSON(a.Values)) + "]"
  }

  /** Each value's JSON, in order. */
  function ValuesJSON(vs: seq<JValue>): (r: seq<string>)
    decreases vs
    ensures |r| == |vs|
  {
    if vs == [] then [] else ValuesJSON(vs[..|vs| - 1]) + [ValueJSON(vs[|vs| - 1])]
  }

  /** The hour, minute and second JDate.JSON prints: MoreValues[3], [4] and [5] when
      present, else 0. MoreValues starts at the fourth constructor argument, so these are
      the seventh, eighth and ninth arguments. */
  function Hour(d: JDate): uint64 {
    if |d.MoreValues| > 3 then d.MoreValues[3] else 0
  }

  function Minute(d: JDate): uint64 {
    if |d.MoreValues| > 4 then d.MoreValues[4] else 0
  }

  function Second(d: JDate): uint64 {
    if |d.MoreValues| > 5 then d.MoreValues[5] else 0
  }

  /** fmt.Sprintf("\"%04d-%02d-%02dT%02d:%02d:%02dZ\"", ...): each field zero-padded to its
      width and never truncated; written here as the date part and the time part. */
  function DateText(year: nat, month: nat, day: nat, hour: nat, minute: nat, second: nat): string {
    "\"" + DatePart(year, month, day) + "T" + TimePart(hour, minute, second) + "Z\""
  }

  /** %04d-%02d-%02d */
  function DatePart(year: nat, month: nat, day: nat): string {
    PadZero(year, 4) + "-" + PadZero(month, 2) + "-" + PadZero(day, 2)
  }

  /** %02d:%02d:%02d */
  function TimePart(hour: nat, minute: nat, second: nat): string {
    PadZero(hour, 2) + ":" + PadZero(minute, 2) + ":" + PadZero(second, 2)
  }

  /** JDate.JSON: the date at the hour, minute and second above. */
  function DateJSON(d: JDate): string {
    DateText(d.Year as nat, d.Month as nat, d.Day as nat, Hour(d) as nat, Minute(d) as nat,
      Second(d) as nat)
  }

  /** JObject.JSON as the code builds it: "{", then per field its JSON and a comma unless
      it is the last, then "}". */
  method ObjectJSONBuild(v: JObject) returns (s: string)
    ensures s == ObjectJSON(v)
  {
    s := "{";
    ghost var written: seq<string> := [];
    for idx := 0 to |v.Fields|
      invariant written == FieldsJSON(v.Fields[..idx])
      invariant s == "{" + Join(written) + (if 0 < idx < |v.Fields| then "," else "")
    {
      var x := FieldJSON(v.Fields[idx]);
      assert v.Fields[..idx + 1][..idx] == v.Fields[..idx];
      JoinStep("{", written, x, |v.Fields|);
      written := written + [x];
      s := s + x;
      if idx + 1 < |v.Fields| {
        s := s + ",";
      }
    }
    assert v.Fields[..|v.Fields|] == v.Fields;
    assert s == "{" + Join(FieldsJSON(v.Fields));
    s := s + "}";
  }

  /** JArray.JSON as the code builds it: "[", then per value its JSON and a comma unless
      it is the last, then "]". */
  method ArrayJSONBuild(v: JArray) returns (s: string)
    ensures s == ArrayJSON(v)
  {
    s := "[";
    ghost var written: seq<string> := [];
    for idx := 0 to |v.Values|
      invariant written == ValuesJSON(v.Values[..idx])
      invariant s == "[" + Join(written) + (if 0 < idx < |v.Values| then "," else "")
    {
      var x := ValueJSON(v.Values[idx]);
      assert v.Values[..idx + 1][..idx] == v.Values[..idx];
      JoinStep("[", written, x, |v.Values|);
      written := written + [x];
      s := s + x;
      if idx + 1 < |v.Values| {
        s := s + ",";
      }
    }
    assert v.Values[..|v.Values|] == v.Values;
    assert s == "[" + Join(ValuesJSON(v.Values));
    s := s + "]";
  }

  /** JDate.JSON as the code computes it: hour, minute and second start at zero and are
      overwritten from MoreValues[3], [4] and [5] when MoreValues is long enough. */
  method DateJSONBuild(v: JDate) returns (s: string)
    ensures s == DateJSON(v)
  {
    var hour, minute, second: uint64 := 0, 0, 0;
    if |v.MoreValues| > 3 {
      hour := v.MoreValues[3];
    }
    if |v.MoreValues| > 4 {
      minute := v.MoreValues[4];
    }
    if |v.MoreValues| > 5 {
      second := v.MoreValues[5];
    }
    s := DateText(v.Year as nat, v.Month as nat, v.Day as nat, hour as nat, minute as nat,
      second as nat);
  }

  /** JBoolean: a bool the grammar fills through Capture, printed by JSON. */
  class JBoolean {
    var value: bool

    constructor(b: bool)
      ensures value == b
    {
      value := b;
    }

    /** Capture stores whether the first captured text is "true"; with no text Go's
        indexing would panic. */
    method Capture(values: seq<string>)
      requires |values| > 0
      modifies this
      ensures value == CapturedBool(values)
    {
      value := values[0] == "true";
    }

    function JSON(): (r: string)
      reads this
      ensures r == "true" <==> value
      ensures r == "false" <==> !value
    {
      BoolJSON(value)
    }
  }

  /** Capturing a text and printing it gives the text back exactly when it is one of the
      two boolean words. */
  lemma CaptureRoundTrip(t: string)
    ensures BoolJSON(CapturedBool([t])) == t <==> t == "true" || t == "false"
  {
    if t == "false" {
      assert t != "true";
    }
  }

  /** Occurrences of c in s. */
  function Occurrences(s: string, c: char): nat {
    if s == [] then 0 else Occurrences(s[..|s| - 1], c) + (if s[|s| - 1] == c then 1 else 0)
  }

  lemma {:induction false} OccurrencesConcat(a: string, b: string, c: char)
    ensures Occurrences(a + b, c) == Occurrences(a, c) + Occurrences(b, c)
  {
    if b == [] {
      assert a + b == a;
    } else {
      assert (a + b)[..|a + b| - 1] == a + b[..|b| - 1];
      OccurrencesConcat(a, b[..|b| - 1], c);
    }
  }

  /** The commas inside the elements themselves. */
  function CommasIn(xs: seq<string>): nat {
    if xs == [] then 0 else CommasIn(xs[..|xs| - 1]) + Occurrences(xs[|xs| - 1], ',')
  }

  /** Joining n elements adds exactly n - 1 commas to those already in them. */
  lemma {:induction false} JoinCommas(xs: seq<string>)
    requires |xs| > 0
    ensures Occurrences(Join(xs), ',') == CommasIn(xs) + |xs| - 1
  {
    if |xs| == 1 {
      assert xs[..0] == [];
    } else {
      var init, last := xs[..|xs| - 1], xs[|xs| - 1];
      JoinCommas(init);
      OccurrencesConcat(Join(init) + ",", last, ',');
      OccurrencesConcat(Join(init), ",", ',');
      assert Occurrences(",", ',') == 1 by {
        assert ","[..0] == "";
      }
    }
  }

  /** The i-th element joined is the i-th field's JSON: the fields keep their order. */
  lemma {:induction false} FieldsJSONOrder(fs: seq<JField>, i: nat)
    requires i < |fs|
    ensures FieldsJSON(fs)[i] == FieldJSON(fs[i])
  {
    if i < |fs| - 1 {
      FieldsJSONOrder(fs[..|fs| - 1], i);
    }
  }

  /** The i-th element joined is the i-th value's JSON: the values keep their order. */
  lemma {:induction false} ValuesJSONOrder(vs: seq<JValue>, i: nat)
    requires i < |vs|
    ensures ValuesJSON(vs)[i] == ValueJSON(vs[i])
  {
    if i < |vs| - 1 {
      ValuesJSONOrder(vs[..|vs| - 1], i);
    }
  }

  /** %q leaves the characters of an identifier alone. */
  lemma {:induction false} QuoteBodyWord(k: string)
    requires forall i :: 0 <= i < |k| ==> IsWordChar(k[i])
    ensures QuoteBody(k) == k
  {
    if k != [] {
      QuoteBodyWord(k[1..]);
    }
  }

  /** A field's key is an identifier, so its JSON is the key between plain double quotes,
      a colon and the value's JSON. */
  lemma {:induction false} FieldJSONLayout(f: JField)
    requires IsIdent(f.Key)
    ensures FieldJSON(f) == "\"" + f.Key + "\":" + ValueJSON(f.Value)
  {
    QuoteBodyWord(f.Key);
  }

  /** With at most three values after the day, the time is midnight. */
  lemma DateDefaultTime(d: JDate)
    requires |d.MoreValues| <= 3
    ensures DateJSON(d) == "\"" + DatePart(d.Year as nat, d.Month as nat, d.Day as nat) + "T00:00:00Z\""
  {
    assert TimePart(0, 0, 0) == "00:00:00" by {
      assert PadZero(0, 2) == "00";
    }
    assert "T" + "00:00:00" + "Z\"" == "T00:00:00Z\"";
    Regroup4("\"" + DatePart(d.Year as nat, d.Month as nat, d.Day as nat), "T", "00:00:00", "Z\"");
  }

  lemma Regroup4(a: string, b: string, c: string, d: string)
    ensures a + b + c + d == a + (b + c + d)
  {
  }

  /** The five pieces of a concatenation, found again by their lengths. */
  lemma Pieces(a: string, b: string, c: string, d: string, e: string)
    ensures var r, i := a + b + c + d + e, |a|;
      var j := i + |b|; var k := j + |c|; var l := k + |d|;
      |r| == l + |e| && r[..i] == a && r[i..j] == b && r[j..k] == c && r[k..l] == d && r[l..] == e
  {
  }

  /** Three fields of widths w, 2 and 2 joined by a separator: each found at its offset,
      and each reads back to its number. */
  lemma {:induction false} ThreeFields(x: nat, w: nat, y: nat, z: nat, sep: char)
    requires 1 <= w && x < Pow10(w) && y < 100 && z < 100
    ensures var r := PadZero(x, w) + [sep] + PadZero(y, 2) + [sep] + PadZero(z, 2);
      |r| == w + 6 && r[w] == sep && r[w + 3] == sep &&
      AllDigits(r[..w]) && ValueOf(r[..w]) == x &&
      AllDigits(r[w + 1..w + 3]) && ValueOf(r[w + 1..w + 3]) == y &&
      AllDigits(r[w + 4..]) && ValueOf(r[w + 4..]) == z
  {
    assert Pow10(2) == 100;
    PadZeroFits(x, w);
    PadZeroFits(y, 2);
    PadZeroFits(z, 2);
    PadZeroValue(x, w);
    PadZeroValue(y, 2);
    PadZeroValue(z, 2);
    Pieces(PadZero(x, w), [sep], PadZero(y, 2), [sep], PadZero(z, 2));
  }

  /** The punctuation of a date whose fields fit their widths:
      "YYYY-MM-DDThh:mm:ssZ" in double quotes. */
  lemma DateTextPunctuation(year: nat, month: nat, day: nat, hour: nat, minute: nat, second: nat)
    requires year < 10000 && month < 100 && day < 100 && hour < 100 && minute < 100 && second < 100
    ensures var r := DateText(year, month, day, hour, minute, second);
      |r| == 22 && r[0] == '"' && r[5] == '-' && r[8] == '-' && r[11] == 'T' &&
      r[14] == ':' && r[17] == ':' && r[20] == 'Z' && r[21] == '"'
  {
    assert Pow10(4) == 10000;
    var dp, tp := DatePart(year, month, day), TimePart(hour, minute, second);
    ThreeFields(year, 4, month, day, '-');
    ThreeFields(hour, 2, minute, second, ':');
    assert dp == PadZero(year, 4) + ['-'] + PadZero(month, 2) + ['-'] + PadZero(day, 2);
    assert tp == PadZero(hour, 2) + [':'] + PadZero(minute, 2) + [':'] + PadZero(second, 2);
    var r := DateText(year, month, day, hour, minute, second);
    Pieces("\"", dp, "T", tp, "Z\"");
    CharAt(r, 0, 1, 0);
    CharAt(r, 1, 11, 5);
    CharAt(r, 1, 11, 8);
    CharAt(r, 11, 12, 11);
    CharAt(r, 12, 20, 14);
    CharAt(r, 12, 20, 17);
    CharAt(r, 20, 22, 20);
    CharAt(r, 20, 22, 21);
  }

  lemma CharAt(s: string, i: nat, j: nat, k: nat)
    requires i <= k < j <= |s|
    ensures s[k] == s[i..j][k - i]
  {
  }

  /** Each field of a date whose fields fit their widths reads back to the number it was
      printed from. */
  lemma DateTextLayout(year: nat, month: nat, day: nat, hour: nat, minute: nat, second: nat)
    requires year < 10000 && month < 100 && day < 100 && hour < 100 && minute < 100 && second < 100
    ensures var r := DateText(year, month, day, hour, minute, second);
      |r| == 22 &&
      AllDigits(r[1..5]) && ValueOf(r[1..5]) == year &&
      AllDigits(r[6..8]) && ValueOf(r[6..8]) == month &&
      AllDigits(r[9..11]) && ValueOf(r[9..11]) == day &&
      AllDigits(r[12..14]) && ValueOf(r[12..14]) == hour &&
      AllDigits(r[15..17]) && ValueOf(r[15..17]) == minute &&
      AllDigits(r[18..20]) && ValueOf(r[18..20]) == second
  {
    assert Pow10(4) == 10000;
    var dp, tp := DatePart(year, month, day), TimePart(hour, minute, second);
    ThreeFields(year, 4, month, day, '-');
    ThreeFields(hour, 2, minute, second, ':');
    var r := DateText(year, month, day, hour, minute, second);
    Pieces("\"", dp, "T", tp, "Z\"");
    SliceOfSlice(r, 1, 11, 0, 4);
    SliceOfSlice(r, 1, 11, 5, 7);
    SliceOfSlice(r, 1, 11, 8, 10);
    SliceOfSlice(r, 12, 20, 0, 2);
    SliceOfSlice(r, 12, 20, 3, 5);
    SliceOfSlice(r, 12, 20, 6, 8);
  }

  lemma SliceOfSlice(s: string, i: nat, j: nat, k: nat, l: nat)
    requires i <= j <= |s| && k <= l <= j - i
    ensures s[i..j][k..l] == s[i + k..i + l]
    ensures k == 0 ==> s[i..j][..l] == s[i..i + l]
    ensures l == j - i ==> s[i..j][k..] == s[i + k..j]
  {
    assert forall n :: 0 <= n < l - k ==> s[i..j][k..l][n] == s[i + k..i + l][n];
  }

  /** The time JDate.JSON prints, read back from the text: MoreValues[3], [4] and [5],
      not the three values right after the day. */
  lemma DateJSONTime(d: JDate)
    requires d.Year < 10000 && d.Month < 100 && d.Day < 100
    requires Hour(d) < 100 && Minute(d) < 100 && Second(d) < 100
    ensures var r := DateJSON(d);
      |r| == 22 && AllDigits(r[1..5]) && AllDigits(r[6..8]) && AllDigits(r[9..11]) &&
      AllDigits(r[12..14]) && AllDigits(r[15..17]) && AllDigits(r[18..20]) &&
      ValueOf(r[1..5]) == d.Year as nat && ValueOf(r[6..8]) == d.Month as nat &&
      ValueOf(r[9..11]) == d.Day as nat &&
      ValueOf(r[12..14]) == (if |d.MoreValues| > 3 then d.MoreValues[3] as nat else 0) &&
      ValueOf(r[15..17]) == (if |d.MoreValues| > 4 then d.MoreValues[4] as nat else 0) &&
      ValueOf(r[18..20]) == (if |d.MoreValues| > 5 then d.MoreValues[5] as nat else 0)
  {
    DateTextLayout(d.Year as nat, d.Month as nat, d.Day as nat, Hour(d) as nat, Minute(d) as nat,
      Second(d) as nat);
  }

  /** The time the date constructor's arguments evidently mean: the hour, minute and second
      are the three values right after the day, MoreValues[0], [1] and [2]. */
  function DateJSONIntended(d: JDate): string {
    var more := d.MoreValues;
    DateText(d.Year as nat, d.Month as nat, d.Day as nat,
      if |more| > 0 then more[0] as nat else 0,
      if |more| > 1 then more[1] as nat else 0,
      if |more| > 2 then more[2] as nat else 0)
  }

  /** Read back, the intended text carries the fourth, fifth and sixth constructor
      arguments as hour, minute and second. */
  lemma DateJSONIntendedTime(d: JDate)
    requires d.Year < 10000 && d.Month < 100 && d.Day < 100
    requires forall i :: 0 <= i < |d.MoreValues| && i < 3 ==> d.MoreValues[i] < 100
    ensures var r := DateJSONIntended(d);
      |r| == 22 && AllDigits(r[1..5]) && AllDigits(r[6..8]) && AllDigits(r[9..11]) &&
      AllDigits(r[12..14]) && AllDigits(r[15..17]) && AllDigits(r[18..20]) &&
      ValueOf(r[1..5]) == d.Year as nat && ValueOf(r[6..8]) == d.Month as nat &&
      ValueOf(r[9..11]) == d.Day as nat &&
      ValueOf(r[12..14]) == (if |d.MoreValues| > 0 then d.MoreValues[0] as nat else 0) &&
      ValueOf(r[15..17]) == (if |d.MoreValues| > 1 then d.MoreValues[1] as nat else 0) &&
      ValueOf(r[18..20]) == (if |d.MoreValues| > 2 then d.MoreValues[2] as nat else 0)
  {
    var more := d.MoreValues;
    DateTextLayout(d.Year as nat, d.Month as nat, d.Day as nat,
      if |more| > 0 then more[0] as nat else 0,
      if |more| > 1 then more[1] as nat else 0,
      if |more| > 2 then more[2] as nat else 0);
  }

  /** new Date(2021,7,27,0,28,45,0): read back, the code's text says 00:00:00 where the
      arguments mean 00:28:45. */
  lemma DateTimeDiscrepancy()
    ensures var d := JDate(2021, 7, 27, [0, 28, 45, 0]);
      var r, i := DateJSON(d), DateJSONIntended(d);
      |r| == 22 && |i| == 22 &&
      AllDigits(r[12..14]) && AllDigits(r[15..17]) && AllDigits(r[18..20]) &&
      AllDigits(i[12..14]) && AllDigits(i[15..17]) && AllDigits(i[18..20]) &&
      ValueOf(r[12..14]) == 0 && ValueOf(r[15..17]) == 0 && ValueOf(r[18..20]) == 0 &&
      ValueOf(i[12..14]) == 0 && ValueOf(i[15..17]) == 28 && ValueOf(i[18..20]) == 45
  {
    var d := JDate(2021, 7, 27, [0, 28, 45, 0]);
    DateJSONTime(d);
    DateJSONIntendedTime(d);
  }
}
