/** Go's fixed-width integers and the decimal renderings the serialiser uses
    (strconv.Itoa and fmt's %0Nd), with the reading of digit runs back into numbers. */
module Numbers {

  newtype uint8 = x: int | 0 <= x < 0x100
  newtype uint16 = x: int | 0 <= x < 0x1_0000
  newtype uint64 = x: int | 0 <= x < 0x1_0000_0000_0000_0000
  newtype int64 = x: int | -0x8000_0000_0000_0000 <= x < 0x8000_0000_0000_0000

  predicate IsDigit(c: char) {
    '0' <= c <= '9'
  }

  predicate AllDigits(s: string) {
    forall i :: 0 <= i < |s| ==> IsDigit(s[i])
  }

  /** A run of decimal digits, as the grammar's Digit+ collects them. */
  type DigitRun = s: string | AllDigits(s)

  /** A run of digits as strconv prints it: not empty, and no leading zero unless it is "0". */
  predicate Canonical(s: string) {
    |s| > 0 && AllDigits(s) && (s[0] == '0' ==> |s| == 1)
  }

  function DigitChar(d: nat): (c: char)
    requires d < 10
    ensures IsDigit(c)
  {
    (48 + d) as char
  }

  function DigitValue(c: char): (d: nat)
    requires IsDigit(c)
    ensures d < 10
  {
    c as int - 48
  }

  function Pow10(k: nat): (p: nat)
    ensures p >= 1
  {
    if k == 0 then 1 else 10 * Pow10(k - 1)
  }

  function Zeros(k: nat): (s: string)
    ensures |s| == k
  {
    if k == 0 then "" else "0" + Zeros(k - 1)
  }

  lemma {:induction false} ZerosAreZeros(k: nat)
    ensures AllDigits(Zeros(k))
    ensures forall i :: 0 <= i < k ==> Zeros(k)[i] == '0'
  {
    if k > 0 {
      ZerosAreZeros(k - 1);
    }
  }

  lemma {:induction false} ZerosSnoc(k: nat)
    requires k > 0
    ensures Zeros(k) == Zeros(k - 1) + "0"
  {
    if k > 1 {
      ZerosSnoc(k - 1);
    }
  }

  /** The base-10 digits of n, most significant first (strconv.FormatUint). */
  function Digits(n: nat): (r: string)
    ensures Canonical(r)
    ensures r[0] == '0' <==> n == 0
    ensures n < 10 <==> |r| == 1
  {
    if n < 10 then [DigitChar(n)] else Digits(n / 10) + [DigitChar(n % 10)]
  }

  /** The number a run of decimal digits denotes. */
  function ValueOf(s: string): nat
    requires AllDigits(s)
  {
    if s == [] then 0 else ValueOf(s[..|s| - 1]) * 10 + DigitValue(s[|s| - 1])
  }

  lemma {:induction false} DigitsRoundTrip(n: nat)
    ensures ValueOf(Digits(n)) == n
  {
    if n >= 10 {
      var r := Digits(n);
      assert r[..|r| - 1] == Digits(n / 10);
      DigitsRoundTrip(n / 10);
    }
  }

  /** Two canonical digit runs with the same value are equal. */
  lemma {:induction false} CanonicalUnique(s: string)
    requires Canonical(s)
    ensures Digits(ValueOf(s)) == s
  {
    if |s| > 1 {
      var p := s[..|s| - 1];
      assert Canonical(p) by {
        assert p[0] == s[0];
      }
      CanonicalUnique(p);
      ValueOfPositive(p);
    }
  }

  lemma {:induction false} ValueOfPositive(s: string)
    requires Canonical(s) && s[0] != '0'
    ensures ValueOf(s) >= Pow10(|s| - 1)
  {
    if |s| > 1 {
      var p := s[..|s| - 1];
      assert p[0] == s[0];
      ValueOfPositive(p);
    }
  }

  lemma {:induction false} ValueOfConcat(a: string, b: string)
    requires AllDigits(a) && AllDigits(b)
    ensures AllDigits(a + b)
    ensures ValueOf(a + b) == ValueOf(a) * Pow10(|b|) + ValueOf(b)
  {
    if b == [] {
      assert a + b == a;
    } else {
      var b' := b[..|b| - 1];
      assert (a + b)[..|a + b| - 1] == a + b';
      assert (a + b)[|a + b| - 1] == b[|b| - 1];
      ValueOfConcat(a, b');
      ShiftDigit(ValueOf(a), Pow10(|b'|), ValueOf(b'), DigitValue(b[|b| - 1]));
    }
  }

  lemma ShiftDigit(x: nat, p: nat, y: nat, d: nat)
    ensures (x * p + y) * 10 + d == x * (10 * p) + (y * 10 + d)
  {
  }

  lemma {:induction false} ValueOfZeros(k: nat)
    ensures AllDigits(Zeros(k))
    ensures ValueOf(Zeros(k)) == 0
  {
    ZerosAreZeros(k);
    if k > 0 {
      ZerosSnoc(k);
      assert Zeros(k)[..k - 1] == Zeros(k - 1);
      ValueOfZeros(k - 1);
      assert Zeros(k)[k - 1] == '0';
    }
  }

  /** strconv.Itoa: a '-' only for negatives, then the canonical digits of the magnitude. */
  function Itoa(n: int): (r: string)
  {
    if n < 0 then "-" + Digits(-n) else Digits(n)
  }

  /** Reading a signed decimal back, as the grammar's integer rule "-"? Digit+ does. */
  function ReadSigned(s: string): int
    requires |s| > 0
    requires if s[0] == '-' then AllDigits(s[1..]) else AllDigits(s)
  {
    if s[0] == '-' then -(ValueOf(s[1..]) as int) else ValueOf(s)
  }

  /** Itoa prints a sign exactly for negatives, canonical digits after it, and reads back to n. */
  lemma ItoaRoundTrip(n: int)
    ensures var r := Itoa(n);
      |r| > 0 && (r[0] == '-' <==> n < 0) &&
      Canonical(if n < 0 then r[1..] else r) &&
      ReadSigned(r) == n
  {
    var r := Itoa(n);
    if n < 0 {
      assert r[1..] == Digits(-n);
      DigitsRoundTrip(-n);
    } else {
      DigitsRoundTrip(n);
    }
  }

  /** fmt's %0<width>d on an unsigned value: zeros on the left up to width, never truncated. */
  function PadZero(n: nat, width: nat): (r: string)
    ensures |r| == if |Digits(n)| < width then width else |Digits(n)|
    ensures AllDigits(r)
  {
    var d := Digits(n);
    if |d| < width then
      ZerosAreZeros(width - |d|);
      Zeros(width - |d|) + d
    else d
  }

  /** A number below 10^k has at most k digits. */
  lemma {:induction false} DigitsLength(n: nat, k: nat)
    requires 1 <= k && n < Pow10(k)
    ensures |Digits(n)| <= k
  {
    if n >= 10 {
      DigitsLength(n / 10, k - 1);
    }
  }

  /** A field that fits its width is printed in exactly that many digits. */
  lemma {:induction false} PadZeroFits(n: nat, width: nat)
    requires 1 <= width && n < Pow10(width)
    ensures |PadZero(n, width)| == width
  {
    DigitsLength(n, width);
  }

  /** Reading a padded field back gives its value. */
  lemma PadZeroValue(n: nat, width: nat)
    ensures ValueOf(PadZero(n, width)) == n
  {
    var d := Digits(n);
    var r := PadZero(n, width);
    DigitsRoundTrip(n);
    if |d| < width {
      assert r == Zeros(width - |d|) + d;
      ZerosPrefixValue(width - |d|, d);
    } else {
      assert r == d;
    }
  }

  /** Leading zeros do not change the value of a digit run. */
  lemma {:induction false} ZerosPrefixValue(k: nat, d: string)
    requires AllDigits(d)
    ensures AllDigits(Zeros(k) + d) && ValueOf(Zeros(k) + d) == ValueOf(d)
  {
    ValueOfZeros(k);
    ValueOfConcat(Zeros(k), d);
  }
}
