/** Decimal rendering of integers as .NET's invariant culture writes them:
    plain interpolation (`{n}`), the `D2` format, and zero padding to a fixed
    width (`dd`, `MM`, `yyyy`), together with the digit reader that parsing
    those fields needs. */
module Text {

  predicate IsDigit(c: char) {
    '0' <= c <= '9'
  }

  predicate AllDigits(s: string) {
    forall i :: 0 <= i < |s| ==> IsDigit(s[i])
  }

  function DigitChar(d: int): (c: char)
    requires 0 <= d <= 9
    ensures IsDigit(c)
  {
    (('0' as int) + d) as char
  }

  function DigitValue(c: char): (d: int)
    requires IsDigit(c)
    ensures 0 <= d <= 9
  {
    (c as int) - ('0' as int)
  }

  function Pow10(k: nat): (p: nat)
    ensures p >= 1
  {
    if k == 0 then 1 else 10 * Pow10(k - 1)
  }

  /** `n.ToString()` for a non-negative `n`: decimal digits, no leading zero. */
  function NatToDigits(n: nat): (s: string)
    ensures |s| >= 1
    ensures AllDigits(s)
    ensures s[0] == '0' ==> n == 0
  {
    if n < 10 then [DigitChar(n)] else NatToDigits(n / 10) + [DigitChar(n % 10)]
  }

  /** The value of a string of decimal digits, most significant first. */
  function DigitsValue(s: string): nat
    requires AllDigits(s)
  {
    if s == [] then 0 else DigitsValue(s[..|s| - 1]) * 10 + DigitValue(s[|s| - 1])
  }

  /** Reading back the digits of `n` gives `n`. */
  lemma {:induction false} DigitsRoundTrip(n: nat)
    ensures DigitsValue(NatToDigits(n)) == n
  {
    if n >= 10 {
      var s := NatToDigits(n);
      assert s[..|s| - 1] == NatToDigits(n / 10);
      DigitsRoundTrip(n / 10);
    }
  }

  /** A number below 10^k has at most k digits. */
  lemma {:induction false} DigitsLength(n: nat, k: nat)
    requires k >= 1 && n < Pow10(k)
    ensures |NatToDigits(n)| <= k
  {
    if n >= 10 {
      DigitsLength(n / 10, k - 1);
    }
  }

  /** One digit exactly for 0..9, two exactly for 10..99. */
  lemma SmallDigitsLength(n: nat)
    ensures |NatToDigits(n)| == 1 <==> n < 10
    ensures 10 <= n < 100 ==> |NatToDigits(n)| == 2
  {
    if n >= 10 {
      assert NatToDigits(n) == NatToDigits(n / 10) + [DigitChar(n % 10)];
    }
  }

  /** A leading zero does not change a digit string's value. */
  lemma {:induction false} LeadingZeroIgnored(s: string)
    requires AllDigits(s)
    ensures AllDigits(['0'] + s)
    ensures DigitsValue(['0'] + s) == DigitsValue(s)
  {
    var t := ['0'] + s;
    if s != [] {
      assert t[..|t| - 1] == ['0'] + s[..|s| - 1];
      LeadingZeroIgnored(s[..|s| - 1]);
    }
  }

  /** Left-pads `s` with '0' up to `width` characters, as .NET's minimum
      digit counts do (`D2`, `dd`, `MM`, `yyyy`). */
  function ZeroPad(s: string, width: nat): (r: string)
    ensures |r| == if |s| >= width then |s| else width
    decreases width - |s|
  {
    if |s| >= width then s else ZeroPad(['0'] + s, width)
  }

  /** Padding keeps the digits, reaches the width, and does not change the value. */
  lemma {:induction false} ZeroPadFacts(s: string, width: nat)
    requires AllDigits(s)
    ensures AllDigits(ZeroPad(s, width))
    ensures |ZeroPad(s, width)| == if |s| >= width then |s| else width
    ensures DigitsValue(ZeroPad(s, width)) == DigitsValue(s)
    decreases width - |s|
  {
    if |s| < width {
      LeadingZeroIgnored(s);
      ZeroPadFacts(['0'] + s, width);
    }
  }

  /** `n` written with exactly `width` digits, when it has no more than that. */
  function FixedDigits(n: nat, width: nat): string {
    ZeroPad(NatToDigits(n), width)
  }

  /** A fixed-width field is all digits, exactly `width` long, and reads back as `n`. */
  lemma FixedDigitsRoundTrip(n: nat, width: nat)
    requires width >= 1 && n < Pow10(width)
    ensures AllDigits(FixedDigits(n, width))
    ensures |FixedDigits(n, width)| == width
    ensures DigitsValue(FixedDigits(n, width)) == n
  {
    DigitsLength(n, width);
    ZeroPadFacts(NatToDigits(n), width);
    DigitsRoundTrip(n);
  }

  /** `{i}` for an `int` in C# string interpolation: a minus sign, then the digits. */
  function IntToString(i: int): (s: string)
    ensures i >= 0 ==> s == NatToDigits(i)
    ensures i < 0 ==> s == "-" + NatToDigits(-i)
  {
    if i < 0 then "-" + NatToDigits(-i) else NatToDigits(i)
  }

  /** `{i:D2}`: at least two digits, after the sign for a negative value. */
  function FormatD2(i: int): (s: string)
    ensures i < 0 ==> |s| >= 3 && s[0] == '-'
    ensures i >= 0 ==> |s| >= 2
  {
    if i < 0 then
      var s := "-" + FixedDigits(-i, 2);
      assert s[0] == '-';
      s
    else FixedDigits(i, 2)
  }

  /** `D2` of 0..99 is exactly two digits that read back as the value. */
  lemma FormatD2TwoDigits(i: int)
    requires 0 <= i < 100
    ensures AllDigits(FormatD2(i))
    ensures |FormatD2(i)| == 2
    ensures DigitsValue(FormatD2(i)) == i
  {
    FixedDigitsRoundTrip(i, 2);
  }
}
