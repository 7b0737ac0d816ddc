/** Decimal numerals as strings, and zero padding. */
module Decimals {
  function DigitChar(d: nat): char
    requires d < 10
  {
    ['0', '1', '2', '3', '4', '5', '6', '7', '8', '9'][d]
  }

  predicate IsDigit(c: char) {
    '0' <= c <= '9'
  }

  function DigitValue(c: char): nat
    requires IsDigit(c)
  {
    (c - '0') as nat
  }

  predicate AllDigits(s: string) {
    forall i :: 0 <= i < |s| ==> IsDigit(s[i])
  }

  /** `String(n)`. */
  function ToText(n: nat): (s: string)
    ensures s != "" && AllDigits(s)
  {
    if n < 10 then [DigitChar(n)] else ToText(n / 10) + [DigitChar(n % 10)]
  }

  /** The number a digit string denotes; leading zeros do not change it. */
  function ToNumber(s: string): nat
    requires AllDigits(s)
  {
    if s == "" then 0 else ToNumber(s[..|s| - 1]) * 10 + DigitValue(s[|s| - 1])
  }

  lemma {:induction false} NumberOfText(n: nat)
    ensures ToNumber(ToText(n)) == n
  {
    if n >= 10 {
      NumberOfText(n / 10);
      assert ToText(n)[..|ToText(n)| - 1] == ToText(n / 10);
    }
  }

  lemma {:induction false} NoLeadingZero(n: nat)
    ensures ToText(n)[0] == '0' <==> n == 0
    ensures n == 0 ==> |ToText(n)| == 1
  {
    if n >= 10 {
      NoLeadingZero(n / 10);
    }
  }

  lemma {:induction false} TextIsInjective(m: nat, n: nat)
    requires ToText(m) == ToText(n)
    ensures m == n
  {
    NumberOfText(m);
    NumberOfText(n);
  }

  function Zeros(n: nat): (z: string)
    ensures |z| == n && AllDigits(z)
  {
    seq(n, _ => '0')
  }

  /** `padStart(width, '0')`: a numeral already that wide is left alone. */
  function PadStart(s: string, width: nat): (p: string)
    requires AllDigits(s)
    ensures AllDigits(p) && |p| == if |s| < width then width else |s|
  {
    if |s| < width then Zeros(width - |s|) + s else s
  }

  lemma {:induction false} ZerosDoNotCount(k: nat, s: string)
    requires AllDigits(s)
    ensures ToNumber(Zeros(k) + s) == ToNumber(s)
    decreases k + |s|
  {
    var z := Zeros(k);
    if s != "" {
      ZerosDoNotCount(k, s[..|s| - 1]);
      assert (z + s)[..|z + s| - 1] == z + s[..|s| - 1];
    } else if k > 0 {
      ZerosDoNotCount(k - 1, "");
      assert z + s == z && z[..k - 1] == Zeros(k - 1) + "";
    }
  }

  lemma {:induction false} PaddedTextIsInjective(m: nat, n: nat, width: nat)
    requires PadStart(ToText(m), width) == PadStart(ToText(n), width)
    ensures m == n
  {
    PaddingKeepsNumber(m, width);
    PaddingKeepsNumber(n, width);
  }

  lemma {:induction false} PaddingKeepsNumber(n: nat, width: nat)
    ensures ToNumber(PadStart(ToText(n), width)) == n
  {
    NumberOfText(n);
    var text := ToText(n);
    if |text| < width {
      ZerosDoNotCount(width - |text|, text);
    }
  }
}
