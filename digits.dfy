/**
 * Decimal text as JavaScript produces and reads it: `Number.prototype.toString` on integers,
 * `String.prototype.padStart(2, '0')`, and the value of a string of ASCII digits.
 */
module Digits {

  predicate IsDigit(c: char) {
    '0' <= c <= '9'
  }

  predicate AllDigits(s: string) {
    forall i :: 0 <= i < |s| ==> IsDigit(s[i])
  }

  /** The value of a digit string read in base ten; the empty string reads as 0 (as `Number("")` does). */
  function DigitsValue(s: string): nat
    requires AllDigits(s)
  {
    if s == [] then 0 else DigitsValue(s[..|s| - 1]) * 10 + (s[|s| - 1] as int - '0' as int)
  }

  function Pow10(n: nat): (p: nat)
    ensures p >= 1
  {
    if n == 0 then 1 else 10 * Pow10(n - 1)
  }

  /** A string of `n` digits reads as a value below `10^n`. */
  lemma {:induction false} DigitsValueBound(s: string)
    requires AllDigits(s)
    ensures DigitsValue(s) < Pow10(|s|)
  {
    if s != [] {
      DigitsValueBound(s[..|s| - 1]);
    }
  }

  function DigitChar(n: int): (c: char)
    requires 0 <= n < 10
    ensures IsDigit(c) && c as int - '0' as int == n
  {
    ('0' as int + n) as char
  }

  /** `n.toString()` for a non-negative integer: the shortest digit string whose value is `n`. */
  function Decimal(n: nat): (s: string)
    ensures 1 <= |s| && AllDigits(s) && DigitsValue(s) == n
    ensures n < 10 <==> |s| == 1
    ensures n >= 1 ==> s[0] != '0'
  {
    if n < 10 then [DigitChar(n)]
    else
      var prefix := Decimal(n / 10);
      var s := prefix + [DigitChar(n % 10)];
      assert s[..|s| - 1] == prefix;
      s
  }

  /** `n.toString()` for any integer: a minus sign before the digits of a negative number. */
  function IntString(n: int): (s: string)
    ensures n >= 0 ==> s == Decimal(n)
    ensures n < 0 ==> s == "-" + Decimal(-n)
  {
    if n < 0 then "-" + Decimal(-n) else Decimal(n)
  }

  /** `s.padStart(width, '0')`: zeros are put in front until `s` is `width` long; longer strings are kept whole. */
  function PadStart(s: string, width: nat): (r: string)
    ensures |r| == if |s| >= width then |s| else width
    ensures r[|r| - |s|..] == s
    ensures forall i :: 0 <= i < |r| - |s| ==> r[i] == '0'
  {
    if |s| >= width then s else seq(width - |s|, _ => '0') + s
  }

  /** `pad(n)` of the calendar route: two digits for every value below 100. */
  function Pad2(n: nat): string {
    PadStart(Decimal(n), 2)
  }

  lemma DecimalTwoDigits(n: nat)
    requires 10 <= n < 100
    ensures |Decimal(n)| == 2
  {
    assert |Decimal(n / 10)| == 1;
  }

  lemma DecimalFourDigits(n: nat)
    requires 1000 <= n < 10000
    ensures |Decimal(n)| == 4
  {
    DecimalThreeDigits(n / 10);
  }

  lemma DecimalThreeDigits(n: nat)
    requires 100 <= n < 1000
    ensures |Decimal(n)| == 3
  {
    DecimalTwoDigits(n / 10);
  }

  /** A zero in front does not change the value of a digit string. */
  lemma {:induction false} LeadingZero(s: string)
    requires AllDigits(s)
    ensures AllDigits("0" + s) && DigitsValue("0" + s) == DigitsValue(s)
  {
    if s != [] {
      var t := "0" + s;
      assert t[..|t| - 1] == "0" + s[..|s| - 1];
      LeadingZero(s[..|s| - 1]);
    }
  }

  /** Padding with zeros keeps the digits and their value. */
  lemma {:induction false} PadStartValue(s: string, width: nat)
    requires AllDigits(s)
    ensures AllDigits(PadStart(s, width)) && DigitsValue(PadStart(s, width)) == DigitsValue(s)
    decreases width - |s|
  {
    if |s| < width {
      if |s| + 1 < width {
        var zeros := seq(width - |s| - 1, _ => '0');
        assert seq(width - |s|, _ => '0') == zeros + "0";
        assert zeros + "0" + s == zeros + ("0" + s);
      }
      assert PadStart(s, width) == PadStart("0" + s, width);
      LeadingZero(s);
      PadStartValue("0" + s, width);
    }
  }

  /** Every value below 100 pads to exactly two digits that read back as the value. */
  lemma Pad2Length(n: nat)
    requires n < 100
    ensures |Pad2(n)| == 2
  {
    if n >= 10 {
      DecimalTwoDigits(n);
    }
  }

  lemma Pad2Value(n: nat)
    requires n < 100
    ensures |Pad2(n)| == 2 && AllDigits(Pad2(n)) && DigitsValue(Pad2(n)) == n
  {
    if n >= 10 {
      DecimalTwoDigits(n);
    }
    PadStartValue(Decimal(n), 2);
  }

  /** Four zero-padded digits, the year of an ISO 8601 date between 0 and 9999. */
  lemma Pad4Value(n: nat)
    requires n < 10000
    ensures |PadStart(Decimal(n), 4)| == 4 && AllDigits(PadStart(Decimal(n), 4))
    ensures DigitsValue(PadStart(Decimal(n), 4)) == n
  {
    if n >= 1000 {
      DecimalFourDigits(n);
    } else if n >= 100 {
      DecimalThreeDigits(n);
    } else if n >= 10 {
      DecimalTwoDigits(n);
    }
    PadStartValue(Decimal(n), 4);
  }
}
