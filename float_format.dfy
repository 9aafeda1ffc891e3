/** The Decimal literal's payload and fmt's %g on it.

    The parser reads a Decimal with strconv.ParseFloat into a float64; %g then prints the
    shortest digits that read back to that float64. Here the payload is the exact decimal the
    parser read, and %g is applied to its significant digits. That agrees with Go whenever the
    decimal has at most 15 significant digits and lies in float64's normal range, because then
    those digits are exactly the shortest ones. */
module FloatFormat {
  import opened Numbers

  /** Sign, integer digits and fraction digits of a decimal literal ("-1234.56" is
      Float64(true, "1234", "56")). */
  datatype Float64 = Float64(negative: bool, whole: DigitRun, frac: DigitRun)

  function LeadingZeros(s: string): (k: nat)
    ensures k <= |s|
    ensures k < |s| ==> s[k] != '0'
  {
    if s != [] && s[0] == '0' then 1 + LeadingZeros(s[1..]) else 0
  }

  function TrimTrailingZeros(s: string): (r: string)
    ensures |r| <= |s| && r == s[..|r|]
    ensures r == [] || r[|r| - 1] != '0'
  {
    if s != [] && s[|s| - 1] == '0' then TrimTrailingZeros(s[..|s| - 1]) else s
  }

  /** The significant digits: no leading and no trailing zero; empty for zero. */
  function Significand(f: Float64): (d: string)
    ensures d == [] || (d[0] != '0' && d[|d| - 1] != '0')
    ensures AllDigits(d)
  {
    SignificantDigits(f.whole + f.frac)
  }

  function SignificantDigits(s: string): (d: string)
    ensures d == [] || (d[0] != '0' && d[|d| - 1] != '0')
    ensures AllDigits(s) ==> AllDigits(d)
  {
    TrimTrailingZeros(s[LeadingZeros(s)..])
  }

  /** Where the decimal point falls relative to the significant digits:
      the value is 0.d1d2... times 10 to this power. */
  function PointPos(f: Float64): int {
    |f.whole| - LeadingZeros(f.whole + f.frac)
  }

  /** Two payloads that denote the same number. */
  predicate SameNumber(f: Float64, g: Float64) {
    f.negative == g.negative && Significand(f) == Significand(g) &&
    (Significand(f) != [] ==> PointPos(f) == PointPos(g))
  }

  /** The integer and fraction digits %g prints in its fixed notation (strconv's fmtF with
      as many fraction digits as there are significant digits after the point). */
  function FixedParts(d: string, dp: int): (parts: (string, string))
    requires d != [] && AllDigits(d)
    ensures AllDigits(parts.0) && AllDigits(parts.1)
  {
    ZerosDigits'(d, if dp > |d| then dp - |d| else 0);
    ZerosDigits(if dp < 0 then -dp else 0, d);
    var intPart :=
      if dp <= 0 then "0"
      else if dp <= |d| then d[..dp]
      else d + Zeros(dp - |d|);
    var fracPart :=
      if dp <= 0 then Zeros(-dp) + d
      else if dp < |d| then d[dp..]
      else "";
    (intPart, fracPart)
  }

  /** strconv's fmtE with the shortest digits: d[.ddd]e±XX, the exponent at least two digits. */
  function Exponential(d: string, exp: int): string
    requires d != []
  {
    [d[0]] + (if |d| > 1 then "." + d[1..] else "") + "e" +
    (if exp < 0 then "-" else "+") + PadZero(if exp < 0 then -exp else exp, 2)
  }

  /** fmt.Sprintf("%g", f): exponent notation when the decimal exponent is below -4 or at
      least 6 (the threshold strconv uses for the shortest precision), fixed notation otherwise;
      a zero prints as "0". A negative payload, zero included, prints a leading '-'. */
  function FormatG(f: Float64): (r: string)
    ensures |r| > 0 && (r[0] == '-' <==> f.negative)
  {
    Render(f.negative, Significand(f), PointPos(f))
  }

  /** %g on the significant digits d and the point position dp. */
  function Render(negative: bool, d: string, dp: int): (r: string)
    requires AllDigits(d)
    ensures |r| > 0 && (r[0] == '-' <==> negative)
  {
    var sign := if negative then "-" else "";
    if d == [] then sign + "0"
    else
      var exp := dp - 1;
      if exp < -4 || exp >= 6 then sign + Exponential(d, exp)
      else
        var (w, fr) := FixedParts(d, dp);
        sign + w + (if fr == [] then "" else "." + fr)
  }

  lemma {:induction false} LeadingZerosPrefix(k: nat, s: string)
    ensures LeadingZeros(Zeros(k) + s) == k + LeadingZeros(s)
  {
    if k > 0 {
      assert (Zeros(k) + s)[1..] == Zeros(k - 1) + s;
      LeadingZerosPrefix(k - 1, s);
    } else {
      assert Zeros(k) + s == s;
    }
  }

  lemma {:induction false} TrimSuffix(s: string, k: nat)
    ensures TrimTrailingZeros(s + Zeros(k)) == TrimTrailingZeros(s)
  {
    if k > 0 {
      ZerosSnoc(k);
      assert (s + Zeros(k))[..|s| + k - 1] == s + Zeros(k - 1);
      TrimSuffix(s, k - 1);
    } else {
      assert s + Zeros(k) == s;
    }
  }

  lemma {:induction false} TrimNoZero(s: string)
    requires s == [] || s[|s| - 1] != '0'
    ensures TrimTrailingZeros(s) == s
  {
  }

  /** Zeros written before the integer digits or after the fraction digits do not change
      what %g prints: it depends on the number, not on how it was spelled. */
  lemma {:induction false} PaddingKeepsFormat(f: Float64, i: nat, j: nat)
    ensures AllDigits(Zeros(i) + f.whole) && AllDigits(f.frac + Zeros(j))
    ensures SameNumber(Float64(f.negative, Zeros(i) + f.whole, f.frac + Zeros(j)), f)
    ensures FormatG(Float64(f.negative, Zeros(i) + f.whole, f.frac + Zeros(j))) == FormatG(f)
  {
    PaddingSameNumber(f, i, j);
    var g := Float64(f.negative, Zeros(i) + f.whole, f.frac + Zeros(j));
    SameNumberSameFormat(g, f);
  }

  lemma {:induction false} PaddingSameNumber(f: Float64, i: nat, j: nat)
    ensures AllDigits(Zeros(i) + f.whole) && AllDigits(f.frac + Zeros(j))
    ensures SameNumber(Float64(f.negative, Zeros(i) + f.whole, f.frac + Zeros(j)), f)
  {
    ZerosDigits(i, f.whole);
    ZerosDigits'(f.frac, j);
    BackPadding(f, j);
    var h := Float64(f.negative, f.whole, f.frac + Zeros(j));
    FrontPadding(h, i);
    SameNumberTransitive(Float64(f.negative, Zeros(i) + f.whole, f.frac + Zeros(j)), h, f);
  }

  lemma {:induction false} ZerosDigits(k: nat, s: DigitRun)
    ensures AllDigits(Zeros(k) + s)
  {
    ZerosAreZeros(k);
  }

  lemma {:induction false} ZerosDigits'(s: DigitRun, k: nat)
    ensures AllDigits(s + Zeros(k))
  {
    ZerosAreZeros(k);
  }

  lemma {:induction false} FrontPadding(f: Float64, i: nat)
    ensures AllDigits(Zeros(i) + f.whole)
    ensures SameNumber(Float64(f.negative, Zeros(i) + f.whole, f.frac), f)
  {
    ZerosDigits(i, f.whole);
    if i > 0 {
      FrontPadding(f, i - 1);
      ZerosDigits(i - 1, f.whole);
      var g := Float64(f.negative, Zeros(i) + f.whole, f.frac);
      var h := Float64(f.negative, Zeros(i - 1) + f.whole, f.frac);
      assert g.whole + g.frac == "0" + (h.whole + h.frac);
      LeadingZeroSameNumber(g, h);
      SameNumberTransitive(g, h, f);
    } else {
      assert Zeros(i) + f.whole == f.whole;
    }
  }

  lemma {:induction false} BackPadding(f: Float64, j: nat)
    ensures AllDigits(f.frac + Zeros(j))
    ensures SameNumber(Float64(f.negative, f.whole, f.frac + Zeros(j)), f)
  {
    ZerosDigits'(f.frac, j);
    if j > 0 {
      BackPadding(f, j - 1);
      ZerosDigits'(f.frac, j - 1);
      var g := Float64(f.negative, f.whole, f.frac + Zeros(j));
      var h := Float64(f.negative, f.whole, f.frac + Zeros(j - 1));
      ZerosSnoc(j);
      assert g.whole + g.frac == (h.whole + h.frac) + "0";
      TrailingZeroSameNumber(g, h);
      SameNumberTransitive(g, h, f);
    } else {
      assert f.frac + Zeros(j) == f.frac;
    }
  }

  lemma SameNumberTransitive(f: Float64, g: Float64, h: Float64)
    requires SameNumber(f, g) && SameNumber(g, h)
    ensures SameNumber(f, h)
  {
  }

  lemma LeadingZeroSameNumber(g: Float64, h: Float64)
    requires g.negative == h.negative && |g.whole| == |h.whole| + 1
    requires g.whole + g.frac == "0" + (h.whole + h.frac)
    ensures SameNumber(g, h)
  {
    LeadingZero(h.whole + h.frac);
  }

  lemma TrailingZeroSameNumber(g: Float64, h: Float64)
    requires g.negative == h.negative && |g.whole| == |h.whole|
    requires g.whole + g.frac == (h.whole + h.frac) + "0"
    ensures SameNumber(g, h)
  {
    TrailingZero(h.whole + h.frac);
  }

  /** A zero in front changes neither the significant digits nor their place after it. */
  lemma {:induction false} LeadingZero(s: string)
    ensures SignificantDigits("0" + s) == SignificantDigits(s)
    ensures LeadingZeros("0" + s) == 1 + LeadingZeros(s)
  {
    assert ("0" + s)[1..] == s;
    var lz := LeadingZeros(s);
    assert ("0" + s)[1 + lz..] == s[lz..];
  }

  /** A zero at the end changes neither the significant digits nor, when there are any,
      where they start. */
  lemma {:induction false} TrailingZero(s: string)
    ensures SignificantDigits(s + "0") == SignificantDigits(s)
    ensures SignificantDigits(s) != [] ==> LeadingZeros(s + "0") == LeadingZeros(s)
  {
    var lz := LeadingZeros(s);
    if lz < |s| {
      LeadingZerosKeep(s, "0");
      DropConcat(s, "0", lz);
      var t := s[lz..] + "0";
      assert t[..|t| - 1] == s[lz..];
    } else {
      LeadingZerosAll(s, 1);
      assert Zeros(1) == "0";
      assert (s + "0")[|s| + 1..] == [];
      assert s[lz..] == [];
    }
  }

  lemma DropConcat(a: string, b: string, k: nat)
    requires k <= |a|
    ensures (a + b)[k..] == a[k..] + b
  {
    var l, r := (a + b)[k..], a[k..] + b;
    assert |l| == |r|;
    forall n | 0 <= n < |l| ensures l[n] == r[n] {
      if k + n < |a| {
        assert l[n] == a[k + n];
      }
    }
  }

  lemma SameNumberSameFormat(f: Float64, g: Float64)
    requires SameNumber(f, g)
    ensures FormatG(f) == FormatG(g)
  {
    if Significand(f) != [] {
      assert PointPos(f) == PointPos(g);
    }
  }

  lemma {:induction false} LeadingZerosKeep(s: string, t: string)
    requires LeadingZeros(s) < |s|
    ensures LeadingZeros(s + t) == LeadingZeros(s)
  {
    if s[0] == '0' {
      assert (s + t)[1..] == s[1..] + t;
      LeadingZerosKeep(s[1..], t);
    }
  }

  lemma {:induction false} LeadingZerosAll(s: string, j: nat)
    requires LeadingZeros(s) == |s|
    ensures LeadingZeros(s + Zeros(j)) == |s| + j
  {
    if s == [] {
      assert s + Zeros(j) == Zeros(j) + [];
      LeadingZerosPrefix(j, []);
    } else {
      assert (s + Zeros(j))[1..] == s[1..] + Zeros(j);
      LeadingZerosAll(s[1..], j);
    }
  }

  /** In fixed notation %g prints the shortest spelling of the same number: integer digits
      without a leading zero, fraction digits without a trailing zero, and reading them back
      as a decimal gives the number printed. */
  lemma FixedReadsBack(f: Float64)
    requires Significand(f) != []
    requires -4 <= PointPos(f) - 1 < 6
    ensures AllDigits(Significand(f))
    ensures var (w, fr) := FixedParts(Significand(f), PointPos(f));
      Canonical(w) && (fr == [] || fr[|fr| - 1] != '0') && AllDigits(fr) &&
      SameNumber(Float64(f.negative, w, fr), f)
  {
    var d := Significand(f);
    FixedPartsNumber(f.negative, d, PointPos(f));
  }

  lemma FixedPartsNumber(neg: bool, d: string, dp: int)
    requires d != [] && AllDigits(d) && d[0] != '0' && d[|d| - 1] != '0'
    ensures var (w, fr) := FixedParts(d, dp);
      Canonical(w) && (fr == [] || fr[|fr| - 1] != '0') &&
      SignificantDigits(w + fr) == d &&
      |w| - LeadingZeros(w + fr) == dp
  {
    if dp <= 0 {
      FixedBelowOne(d, dp);
    } else if dp < |d| {
      FixedWithFraction(d, dp);
    } else {
      FixedWhole(d, dp);
    }
  }

  lemma FixedBelowOne(d: string, dp: int)
    requires d != [] && d[0] != '0' && d[|d| - 1] != '0'
    requires dp <= 0
    ensures SignificantDigits("0" + (Zeros(-dp) + d)) == d
    ensures LeadingZeros("0" + (Zeros(-dp) + d)) == 1 - dp
  {
    var all := "0" + (Zeros(-dp) + d);
    assert all == Zeros(1 - dp) + d;
    LeadingZerosPrefix(1 - dp, d);
    assert LeadingZeros(d) == 0;
    assert all[1 - dp..] == d;
    TrimNoZero(d);
  }

  lemma FixedWithFraction(d: string, dp: int)
    requires d != [] && d[0] != '0' && d[|d| - 1] != '0'
    requires 0 < dp < |d|
    ensures SignificantDigits(d[..dp] + d[dp..]) == d
    ensures LeadingZeros(d[..dp] + d[dp..]) == 0
  {
    assert d[..dp] + d[dp..] == d;
    assert LeadingZeros(d) == 0;
    assert d[0..] == d;
    TrimNoZero(d);
  }

  lemma FixedWhole(d: string, dp: int)
    requires d != [] && d[0] != '0' && d[|d| - 1] != '0'
    requires dp >= |d|
    ensures SignificantDigits(d + Zeros(dp - |d|) + "") == d
    ensures LeadingZeros(d + Zeros(dp - |d|) + "") == 0
  {
    var w := d + Zeros(dp - |d|);
    assert w + "" == w;
    LeadingZerosKeep(d, Zeros(dp - |d|));
    assert LeadingZeros(d) == 0;
    assert w[0..] == w;
    TrimSuffix(d, dp - |d|);
    TrimNoZero(d);
  }
}
